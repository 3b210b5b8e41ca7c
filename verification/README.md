# Treetop REST: a verified model of the policy server

Treetop REST keeps one policy store (policies, labels, schema, an engine built from them) that uploads, remote
pollers and bundles replace while authorization batches and policy listings read it. This project models that
store, the requests and pollers around it, and the fast forms the server uses on its hot paths, and proves what
they keep.

**The store** (`StoreSpec`, `PolicyStores`, `Acceptance`, `Coherence`, `UpdateOrder`). `StoreSpec` gives every
operation of the store as an ordered list of checks and the state it publishes; the class `PolicyStore` does the
same work field by field and each method is proved to do exactly that. Over every run, in both schema modes,
engine, context status and label handles are functions of the three stored texts; a failed call changes nothing;
strict mode never holds policies without a schema that backs them; a call is accepted under exactly stated
conditions; bundle metadata is present only with that bundle's content; and policy, schema and label updates
commute.

**Requests and pollers** (`ListKeys`, `Lru`, `ListingCaches`, `Batch`, `Server`, `ServerTrace`, `ServerUploads`,
`ServerProgress`, `LruRecency`, `Readiness`, `BoundedBody`, `BundlePolling`, `BundleFetchers`, `GenericPolling`,
`GenericFetchers`, `PollerConvergence`). Listings with their two critical sections, batches on a snapshot,
two-phase bundle uploads, updates and panics are steps of one interleaved system, and every response of every run,
errors included, is justified by one store the system went through while its request was running. The two pollers
are classes over the store, and what their validators vouch for is proved over whole histories of polls and other
people's updates.

**Fast forms** (`ForwardedFor`, `Bearer`, `Admission`, `MetricLabels`, `ActionMetrics`, `MetricsSinks`,
`GitDescribe`). The one-pass forwarded-chain scan against the right-to-left walk, the token recogniser against its
grammar, the label codec against a decoder, the fast entity-UID splitter against the canonical form, the
double-checked metric cache against plain counting, and the version rewriting against the describe format.

Cedar, the policy engine, label and bundle parsing, SHA-256 and address parsing are deterministic functions in the
records `Libraries` and `NetLibrary`. A theorem that needs a fact about one of them requires it by name:
`EmptyTextIsNoDocument`, `ListsByPolicyText`, `SoundBundle` (what bundle validation promises),
`DecisionsCarryVersion`, and the `…Distinguish` predicates (no digest collisions). An engine is described by what it
was built from: policy text, runtime schema, label registry, layout.

## Findings

- The component pollers adopt validators at HEAD, before the text is fetched and applied. `NotModifiedIsRightExactly`
  says when a later 304 is right: exactly when the text shown by the last successful HEAD is the one the last successful
  fetch brought. It is wrong after a text was refused (`RefusedTextIsSkippedLater`), after the GET failed
  (`UnfetchedTextIsSkippedLater`), and after the origin changed between HEAD and GET (`ReplacedTextIsSkippedLater`).
  The bundle poller does not have this gap (`SkipsOnlyAppliedContent`).
- The order of publishing and clearing has a consequence only if a cache mutex were ever poisoned; nothing in the
  modelled code is known to panic while holding one. In that hypothetical state a policy or label update that passes its
  checks is published and still reported as failed (`FailureIsAtomicExactly`), and with the raw mutex poisoned the JSON
  cache keeps answering for the old policies (`JsonAnswerAfterUpdate`, `PoisonedRawMutexLeavesJsonStale`).
- A 304 or an equal digest tells the bundle poller that it applied that body last; if somebody uploaded another bundle
  since, the uploaded one stays (`SettledPollerIsInvisible`).
- Once a bundle source is configured, it alone decides readiness. The command line forbids configuring another source
  beside it, and then readiness means that each configured source was loaded (`ReadyWhenEachLoaded`).
- The size limit is exact for every limit below the largest `usize`. At that limit the saturating sum would hide an
  excess (`DeliveredBody`), but only for a body no buffer can hold, so this is unreachable.
- Metric labels of different entity types coincide exactly when the id under the shorter type name starts with the
  rest of the longer one (`TypesCollideExactly`, `TypesMayCollide`).

## Model

| member | source | states |
|---|---|---|
| `PolicyStores.PolicyStore.constructor` | src/state.rs:351-378 | A new store is the empty permissive store with no source and empty caches. |
| `PolicyStores.PolicyStore.EnsureSchemaPresentForPolicyReload` | src/state.rs:504-514 | Fails exactly in strict mode without a stored schema. |
| `PolicyStores.PolicyStore.CurrentSchema` | src/state.rs:466-473 | No schema for empty content, an error for content that does not parse, else the stored schema. |
| `PolicyStores.PolicyStore.RuntimeSchemaForDsl` | src/state.rs:528-549 | An error exactly in strict mode on a schema mismatch; otherwise the schema is kept iff the policies validate, with the matching status. |
| `PolicyStores.PolicyStore.BuildEngineFromParts` | src/state.rs:551-573 | The engine of the text, runtime schema and labelers, registry only when there are labelers; compile errors come before registry errors. |
| `PolicyStores.PolicyStore.RebuildEngine` | src/state.rs:575-587 | Replaces engine and status together, or nothing at all when any step fails. |
| `PolicyStores.PolicyStore.ClearListPoliciesCache` | src/state.rs:858-876 | Clears raw, then JSON; a poisoned mutex ends it with an error and leaves the rest as it is. |
| `PolicyStores.PolicyStore.RebuildForDsl` | src/state.rs:594-605 | The fallible part of `set_dsl`: its verdict, and engine and status together or nothing. |
| `PolicyStores.PolicyStore.SetDsl` | src/state.rs:589-610 | The whole new state and outcome are those of the specification, with all its checks in order and the caches cleared last. |
| `PolicyStores.PolicyStore.CheckSchema` | src/state.rs:612-643 | The first failing check: record, parse, stored labels against the new schema. |
| `PolicyStores.PolicyStore.SetSchema` | src/state.rs:612-654 | As the specification says; the listing caches are untouched. |
| `PolicyStores.PolicyStore.CheckLabels` | src/state.rs:662-679 | Either the failing check, or the parsed labels and the schema the engine is rebuilt for. |
| `PolicyStores.PolicyStore.SetLabels` | src/state.rs:656-687 | As the specification says: handles, record and engine from the new label text, caches cleared last. |
| `PolicyStores.PolicyStore.ApplyPreparedBundle` | src/state.rs:781-795 | Installs the prepared content as a whole after mode check and cache clearing, or keeps the old content as a whole. |
| `PolicyStores.PolicyStore.SetSchemaValidationMode` | src/state.rs:380-382 | Changes the mode and nothing else. |
| `PolicyStores.PolicyStore.ConfigureRemoteSource` | src/state.rs:385-420 | Sets origin and refresh in metadata and load state, and withdraws the source's loaded flag; a bundle source also turns bundle mode on. |
| `PolicyStores.PolicyStore.MarkRemoteSourceLoaded` | src/state.rs:423-448 | Marks the source loaded and restores a component's configured origin and refresh in its metadata. |
| `PolicyStores.PolicyStore.ConfiguredSourcesLoaded` | src/state.rs:454-464 | Answers the readiness predicate of the state. |
| `PolicyStores.PolicyStore.ListPolicies` | src/state.rs:797-845 | A listing at the normalised key: touch on a hit, compute and put on a miss, nothing stored on an error. |
| `Coherence.StepContent` | src/state.rs:589-795 | After any call the content is the one it installs, or the old one up to metadata origins. |
| `Coherence.PreparedCoherent` | src/state.rs:705-779 | A prepared bundle's engine, status and handles are those of its own texts. |
| `Coherence.InstalledCoherent` | src/state.rs:589-795 | Whatever an accepted call installs is coherent. |
| `Coherence.StepCoherent` | src/state.rs:589-795 | Every operation, accepted or refused, in both modes, keeps the store coherent. |
| `Coherence.RunCoherent` | src/state.rs:589-795 | Coherence over every run. |
| `Coherence.ReachableStoreCoherent` | src/state.rs:351-795 | In every reachable store the status is no_schema iff there is no schema, schema_backed iff the stored schema validates the policies, and the engine's label version is the stored label hash. |
| `Coherence.AcceptedUpdateRecords` | src/state.rs:589-686 | An accepted update replaces only its own record; a source or refresh not given is kept from the old one. |
| `Coherence.FailureIsAtomic` | src/state.rs:537-686 | With unpoisoned cache mutexes a call that returns an error leaves the whole store as it was. |
| `Coherence.FailureIsAtomicExactly` | src/state.rs:589-686 | Without that assumption, a failed call changes content exactly when a policy or label update passed its checks and met a poisoned mutex. |
| `Coherence.UnparsableTextRefused` | src/state.rs:537-586 | In permissive mode a text that does not compile, first taken for a schema mismatch, is refused with the compile error and changes nothing. |
| `Coherence.StrictInstallsSchema` | src/state.rs:516-526 | A bundle prepared under either mode is installed under strict mode only with a schema that backs it. |
| `Coherence.StepStrict` | src/state.rs:504-549 | In strict mode every call keeps non-empty policies schema-backed. |
| `Coherence.ModeOnlySet` | src/state.rs:380-382 | No operation but the setter changes the mode. |
| `Coherence.StrictRun` | src/bin/server.rs:97-100 | A server started strict never holds policies without a schema that backs them, over every run. |
| `Coherence.UpdatesDropBundle` | src/state.rs:606-684 | Every accepted component update drops the bundle metadata. |
| `Coherence.BundleProvenance` | src/state.rs:705-795 | Bundle metadata is present only while engine, texts, handles and status all come from one bundle whose installation the run accepted. |
| `Acceptance.DslAcceptedExactly` | src/state.rs:589-605 | A policy text is accepted iff strict mode has a schema, a stored schema parses and in strict mode validates it, it compiles with the schema that backs it, and the stored labels register. |
| `Acceptance.SchemaAcceptedExactly` | src/state.rs:612-648 | A schema is accepted iff it parses and can be counted, stored labels fit it, strict mode's policies validate against it, and they compile with it or without. |
| `Acceptance.LabelsAcceptedExactly` | src/state.rs:656-679 | Labels are accepted iff they parse, fit a stored schema, and the stored policies build with them. |
| `Acceptance.UpdateAcceptedExactly` | src/state.rs:589-687 | With sound cache mutexes an update passes iff its checks do. |
| `Acceptance.WithoutSchemaRefused` | src/state.rs:504-586 | Without a stored schema an uncompilable text is refused with its compile error, and strict mode refuses any text; nothing changes. |
| `Acceptance.FirstFailureReported` | src/state.rs:528-586 | Over a stored schema the error reported is strict validation's, else compilation's, else the label registry's. |
| `Acceptance.SchemaFirstFailure` | src/state.rs:612-648 | A refused schema reports the first of: it does not parse, cannot be counted, stored labels do not parse, they do not fit, strict validation fails, compilation fails. |
| `Acceptance.LabelsFirstFailure` | src/state.rs:656-679 | Refused labels report the first of: they do not parse, they do not fit a stored schema, that schema does not parse, strict validation fails, compilation fails. |
| `Acceptance.AcceptedUpdateBuilt` | src/state.rs:551-587 | What an accepted update publishes has compiled with its runtime schema, and its registry was built. |
| `Acceptance.ReachableStoreBuilt` | src/state.rs:351-687 | In every reachable store whose content is not a bundle's the stored policies have compiled. |
| `Acceptance.PreparedRecords` | src/state.rs:705-779 | A prepared bundle holds that bundle's texts with their own counts, the given origin and time, its engine in the asked layout, its handles and its description. |
| `Acceptance.PreparedExactly` | src/state.rs:705-751 | A bundle is prepared iff the mode's need for a schema is met, its engine can be prepared, and its labels and schema can be written out. |
| `Acceptance.PreparationFirstFailure` | src/state.rs:712-751 | A bundle that cannot be prepared reports the missing schema, else the engine's error, else the labels', else the schema's. |
| `Acceptance.AppliedExactly` | src/state.rs:781-795 | Prepared content is installed iff strict mode finds a schema in it and both cache mutexes are sound; then the store holds it with empty caches, else its old content. |
| `Acceptance.UpdatesAndCaches` | src/state.rs:606-686 | Accepted policy and label updates empty both caches; a schema update leaves them. |
| `UpdateOrder.LastTextsStored` | src/state.rs:589-686 | After accepted updates the store holds the last text of each stream. |
| `UpdateOrder.OrderIndependent` | src/state.rs:589-686 | Two accepted runs with the same last texts end with the same engine, status and label handles; a bundle held at the start is dropped by the first update. |
| `UpdateOrder.CompatibleUpdateAccepted` | src/state.rs:589-686 | In permissive mode an update drawn from compatible streams is accepted whatever the store holds from them. |
| `UpdateOrder.InterleavingAccepted` | src/fetcher/policy.rs:19-27 | Every interleaving of compatible policy, schema and label streams is accepted in full. |
| `UpdateOrder.InterleavingsAgree` | src/fetcher/schema.rs:19-27 | Any two interleavings of the same three compatible streams end with the same engine, status and label handles. |
| `ListKeys.DedupStrictlySorts` | src/state.rs:911-916 | Removing equal neighbours from a sorted list leaves it strictly sorted. |
| `ListKeys.StrictlySortedUnique` | src/state.rs:911-916 | A strictly sorted list is determined by its members. |
| `ListKeys.NormalizeAnySort` | src/state.rs:911-916 | Whatever sort is used, the normal form of the filters is the same. |
| `ListKeys.KeyIsCanonical` | src/state.rs:889-916 | Two requests share a cache key exactly when user, group set and namespace set agree. |
| `ListKeys.KeyAsksForRequest` | src/state.rs:797-856 | The key of a request is the one key with its user, exactly its groups and exactly its namespaces, each sorted without repetition. |
| `Lru.TouchIsTransparent` | src/state.rs:808-810 | A cache hit changes no answer and keeps the cache within its limit with one entry per key. |
| `Lru.PutWellFormed` | src/state.rs:818-819 | A put keeps the cache within its limit with one entry per key. |
| `Lru.PutLookup` | src/state.rs:818-819 | After a put its key finds its value; another key finds what it found before, or nothing, and that only when a full cache took a new key. |
| `LruRecency.CacheHoldsMostRecent` | src/state.rs:797-845 | After any uses the cache holds the most recently used distinct keys, as many as fit, the last used first. |
| `LruRecency.ListingUsesCache` | src/state.rs:797-845 | An answered listing uses its key in the 128-entry cache of its form; no listing touches the other cache, and a failed one touches neither. |
| `ListingCaches.StepCachesSound` | src/state.rs:589-876 | Every call keeps both caches at most 128 entries and holding only listings of the current engine; `set_schema` may leave them because listing looks at policy text alone. |
| `ListingCaches.RunCachesSound` | src/state.rs:797-881 | The same over every run. |
| `ListingCaches.ListingTransparent` | src/state.rs:797-856 | After any run a listing answers what the engine lists at the normalised key: raw always, JSON while the raw mutex is sound. |
| `ListingCaches.JsonAnswerAfterUpdate` | src/state.rs:858-876 | After an accepted policy text a cached JSON key is answered anew exactly when the raw mutex was sound. |
| `ListingCaches.PoisonedRawMutexLeavesJsonStale` | src/state.rs:858-876 | A concrete run in which a poisoned raw mutex leaves a stale JSON answer. |
| `Batch.DepthIsNesting` | src/handlers.rs:425-432 | The computed depth is the length of the longest chain of nested values. |
| `Batch.ContextPasses` | src/handlers.rs:434-480 | A context passes iff it keeps every limit, no chain nests too deep, and strict mode has a schema; no context always passes. |
| `Batch.ContextLimitsInOrder` | src/handlers.rs:444-473 | The first limit broken, in the order keys, bytes, depth, is the one reported. |
| `Batch.ParallelAt` | src/handlers.rs:548-567 | Under any fork-join split, position i of the parallel output is the evaluation of request i. |
| `Batch.ParallelRefinesSequential` | src/handlers.rs:548-590 | For every split the parallel output is the sequential output. |
| `Batch.EvaluateBatch` | src/handlers.rs:534-595 | Both branches return one result per request in order, the number of successes, and failures that make up the batch size. |
| `Batch.ItemsAnswerRequests` | src/handlers.rs:494-531 | Item i has index i, the client id of request i, and the one right result: the engine's own decision, else the context's error, else the engine's message. |
| `Batch.CountIsCardinality` | src/handlers.rs:569-590 | The reported count is the number of successful items. |
| `Batch.ViewsAgree` | src/handlers.rs:671-704 | Brief and detailed views succeed and fail on the same items, with the same messages and counts. |
| `Batch.ItemsCarryVersion` | src/handlers.rs:662-704 | Every successful item carries the version of the captured snapshot. |
| `Server.AdvanceCachesSound` | src/state.rs:797-845 | Each critical section of a listing keeps the caches sound; the gap between them never stores a stale entry. |
| `Server.AdvanceTaskSound` | src/state.rs:797-845 | What a listing carries across the gap is the current engine's listing at its key, and so is its answer, error or not, unless it reports a poisoned cache. |
| `Server.BecomeSound` | src/handlers.rs:1043-1066 | A step that changes the engine needs the write lock, and keeps every task in flight and every earlier response right. |
| `Server.UploadAnswerRight` | src/handlers.rs:892-914 | An upload is answered for a store whose predecessor admitted its token, and the answer describes exactly the store produced. |
| `Server.EndUploadSound` | src/handlers.rs:901-914 | The apply phase, which rechecks token and mode under the lock, keeps the whole system sound whether it installs, is refused or fails. |
| `Server.StepSystemSound` | src/state.rs:589-795 | Any update or panic, in any interleaving, keeps the whole system sound. |
| `Server.EveryResponseJustified` | src/handlers.rs:642-1066 | In every interleaving of listings, batches, uploads, updates and panics every response, error listings included, is right about one store of the history between its start and its finish. |
| `ServerTrace.ResponsesAnswerRequests` | src/handlers.rs:642-1066 | Every response answers a request of the run, at its normalised key, with its items or its token; start and finish are the steps where that request was made and answered. |
| `ServerTrace.ListingAnswersRequest` | src/handlers.rs:1043-1066 | A listing answered in any run is the engine's listing for the request's own user, groups and namespaces, of one store between its start and its finish, unless it reports a poisoned cache. |
| `ServerUploads.AnsweredUploadInstalled` | src/handlers.rs:828-914 | Every upload answered in any run carried the token of the store just before, was prepared between start and answer under the mode of the store it started on, and the store the answer tells of holds exactly what that gave. |
| `ServerUploads.AnsweredUploadDescribesBundle` | src/handlers.rs:892-914 | What the uploader is told are the bundle's own texts, counts and description. |
| `ServerProgress.UninterruptedListing` | src/state.rs:797-845 | The critical sections of a listing, run in a row, answer and leave the caches exactly as a listing in one go. |
| `ServerProgress.CriticalSections` | src/state.rs:797-845 | However a listing is interrupted: a poisoned cache answers with that error and changes nothing; otherwise the insertion answers the computed listing, which its key then finds. |
| `ServerProgress.ServedListingKept` | src/state.rs:797-845 | An answered listing is at the front of the cache of its form, under its key. |
| `ServerProgress.ListingIsAnswered` | src/handlers.rs:1038-1066 | An uninterrupted listing is answered, and with that answer. |
| `ServerProgress.BatchIsAnswered` | src/handlers.rs:642-704 | A batch is taken iff it is within the limit, and then answered without touching the store. |
| `ServerProgress.UploadIsAnswered` | src/handlers.rs:828-914 | An uninterrupted upload with the token is answered and installed iff its bundle can be prepared under the store's mode and applied. |
| `ServerProgress.UploadWithoutToken` | src/handlers.rs:829-833 | Without the token an upload does not start. |
| `ServerTrace.PastIsHistory` | src/handlers.rs:642-1066 | Position k of the history is the store after k steps. |
| `Server.BatchIsolated` | src/handlers.rs:662-704 | However many updates run meanwhile, every item of a batch, success or failure, is right for one single store: its engine, mode and schema, and its version is the one reported. |
| `Readiness.UploadAdmittedExactly` | src/handlers.rs:117-139 | A request may upload iff uploads are on, a token is set and the header is that token; the first failing condition is reported. |
| `Readiness.PassedUploadCarriedToken` | src/handlers.rs:761-833 | An upload that passes carried the token, and a component upload met a store outside bundle mode. |
| `Readiness.ComponentUploadExactly` | src/handlers.rs:765-799 | With token, outside bundle mode and with some text a component upload is the store's own update without an origin; each missing condition refuses it in that order. |
| `Readiness.BundleUploadExactly` | src/handlers.rs:828-914 | With the token a bundle upload is preparation and installation without an origin, in bundle mode too; without it nothing changes. |
| `Readiness.PassedUploadInstalled` | src/handlers.rs:794-796 | What a passing upload brought is what the store then holds. |
| `Readiness.PassedPollInstalled` | src/fetcher/policy.rs:19-27 | A passing poll leaves its text, or its bundle with the poller's origin, in the store and marks its source. |
| `Readiness.ConfiguringWritesOrigin` | src/state.rs:385-420 | Configuring a component source shows its origin at once, takes its loaded flag back, and touches nothing else. |
| `Readiness.ConfiguringBundle` | src/state.rs:412-418 | Configuring the bundle source turns bundle mode on and touches no content. |
| `Readiness.ConfiguredOriginShown` | src/state.rs:385-448 | Until a bundle is installed, a configured component always shows its configured origin. |
| `Readiness.ServeRemote` | src/state.rs:279-287 | Only configuring a source or applying its poll touches its load state, and how. |
| `Readiness.PollRestoresOrigin` | src/fetcher/policy.rs:19-27 | An applied component poll restores the configured origin and refresh in the metadata. |
| `Readiness.RemoteEqualsHistory` | src/state.rs:385-448 | A source is configured and loaded exactly when the history of calls says so. |
| `Readiness.ModeEqualsHistory` | src/state.rs:412-418 | Bundle mode is on exactly when a bundle source was configured. |
| `Readiness.ReadyEqualsHistory` | src/state.rs:454-464 | The store reports ready iff every source that counts had a validated apply since its last configure. |
| `Readiness.ReadyWhenEachLoaded` | src/config.rs:143-145 | With a bundle source only alone, ready iff each configured source had a validated apply since its last configure. |
| `Readiness.UploadsKeepReadiness` | src/handlers.rs:761-939 | Uploads, bundle uploads, failed polls and listings neither create readiness nor take it away. |
| `Readiness.OnlyConfiguringRevokes` | src/state.rs:450-464 | Readiness once reached is revoked only by configuring a source. |
| `Readiness.ReadyExactly` | src/state.rs:454-464 | In bundle mode readiness is the bundle's load; otherwise every component that is configured, or whose record names an origin, must have been loaded. |
| `BoundedBody.ReadBounded` | src/fetcher/bundle.rs:128-163 | The loop returns the specified result and never accepts more than the limit. |
| `BoundedBody.DeliveredBody` | src/handlers.rs:840-865 | A whole body is accepted, as the concatenation of its chunks, exactly when its total length is within the limit (saturation aside). |
| `BoundedBody.AcceptedExactly` | src/handlers.rs:840-865 | A whole body is accepted iff its declared length, if any, and its real length are within the limit (saturation aside). |
| `BoundedBody.ChunkingIndependent` | src/handlers.rs:840-865 | Two ways of cutting one body give one result. |
| `BoundedBody.BrokenBodyRefused` | src/handlers.rs:854-865 | A stream that yields an error is never accepted. |
| `BoundedBody.HexEncode` | src/fetcher/bundle.rs:260-269 | The loop writes high nibble, then low nibble, of every byte. |
| `BoundedBody.UnhexOfHex` | src/fetcher/bundle.rs:260-269 | The hexadecimal digest reads back as its bytes, high nibble first. |
| `BoundedBody.HexInjective` | src/fetcher/bundle.rs:260-269 | Equal hex digests mean equal digests. |
| `BundleFetchers.BundleFetcher.constructor` | src/fetcher/bundle.rs:52-79 | A new poller remembers nothing. |
| `BundleFetchers.BundleFetcher.Start` | src/fetcher/bundle.rs:81-92 | Configures the bundle source before the first poll. |
| `BundleFetchers.BundleFetcher.CheckAndUpdate` | src/fetcher/bundle.rs:104-239 | One poll: memory, store and outcome as specified; validators are adopted only after the body is applied or known. |
| `BundleFetchers.BundleFetcher.Install` | src/fetcher/bundle.rs:174-227 | Prepare under the mode read before, apply, and mark loaded only when applied. |
| `BundlePolling.FailedPollChangesNothing` | src/fetcher/bundle.rs:104-239 | A failed poll leaves memory and content as they were, so the same body is tried again. |
| `BundlePolling.PassedPollRemembers` | src/fetcher/bundle.rs:164-230 | A passing poll with a body adopts that reply's validators and digest; a 304 keeps everything. |
| `BundlePolling.PollFailures` | src/fetcher/bundle.rs:112-163 | No answer, a refusal, a broken or oversized body and an unreadable archive each fail with their own error and change nothing. |
| `BundlePolling.AppliedPollInstalls` | src/fetcher/bundle.rs:173-230 | A poll that applies installs the fetched bundle, prepared under the mode read, in the poller's layout and with its origin. |
| `BundlePolling.PollerMemory` | src/fetcher/bundle.rs:164-230 | The remembered digest is that of the body applied last, and remembered validators came with a body of that digest. |
| `BundlePolling.SkipsOnlyAppliedContent` | src/fetcher/bundle.rs:112-171 | With strong validators, a poll that succeeds without applying meets a body this poller applied last. |
| `BundlePolling.OnePollSettles` | src/fetcher/bundle.rs:212-230 | One complete reply about a valid archive settles the poller; if the body is new the store holds it and the source is loaded. |
| `BundlePolling.SettledPollsLeaveStore` | src/fetcher/bundle.rs:112-171 | A poll of a settled poller, whatever the reply, leaves the store as it is while the origin keeps the body. |
| `BundlePolling.SettledPollerIsInvisible` | src/fetcher/bundle.rs:112-171 | Over every run of later polls the store is what the others alone make of it. |
| `BundlePolling.StoreHoldsApplied` | src/fetcher/bundle.rs:212-230 | While nobody else updates or installs, the store holds what one of the polls prepared from the body applied last, and the source is loaded. |
| `BundlePolling.PassedPollHoldsCurrent` | src/fetcher/bundle.rs:104-239 | With strong validators and no other writer, every passing poll leaves the store holding the origin's current bundle, fetched or skipped. |
| `GenericFetchers.GenericFetcher.constructor` | src/fetcher/generic.rs:25-34 | A new poller remembers nothing. |
| `GenericFetchers.GenericFetcher.ApplySuccessfulResponse` | src/fetcher/labels.rs:19-27 | Updates the component and marks it loaded only if the update was accepted. |
| `GenericFetchers.GenericFetcher.CheckAndUpdate` | src/fetcher/generic.rs:47-114 | One poll: HEAD, validators, GET, hash, apply; memory, store and outcome as specified. |
| `GenericPolling.PollInstallsExactly` | src/fetcher/generic.rs:74-113 | A poll that applies leaves its text in the store, the source loaded and the hash remembered; any other poll leaves store and hash as they were. |
| `GenericPolling.PollFailsExactly` | src/fetcher/generic.rs:47-114 | A poll fails exactly when HEAD or GET brings no answer or the store refuses a new text, with the store's own error. |
| `GenericPolling.TextPollerMemory` | src/fetcher/generic.rs:47-114 | The hash is that of the last text the store accepted from this poller, and the validators are those of the last successful HEAD. |
| `GenericPolling.NotModifiedIsRightExactly` | src/fetcher/generic.rs:57-72 | A 304 skips applied content exactly when the text the last successful HEAD showed is the one the last successful fetch brought. |
| `GenericPolling.StoreHoldsApplied` | src/fetcher/policy.rs:19-27 | While nobody else replaces its kind of text, the store holds what the poller applied last, marked as loaded. |
| `GenericPolling.NotModifiedWhileInstalled` | src/fetcher/generic.rs:57-60 | Then a 304 that meets the condition meets a store that holds the origin's text. |
| `GenericPolling.WithoutValidatorsNothingSkipped` | src/fetcher/generic.rs:61-112 | From an origin without validators every successful poll has fetched a text and leaves it the one applied last. |
| `GenericPolling.WithoutValidatorsInstalled` | src/fetcher/generic.rs:61-112 | And, while nobody else replaces it, the store holds that text. |
| `GenericPolling.RefusedTextIsSkippedLater` | src/fetcher/generic.rs:61-72 | A concrete run in which a refused text, by then acceptable, is skipped by a 304. |
| `GenericPolling.UnfetchedTextIsSkippedLater` | src/fetcher/generic.rs:61-83 | A concrete run in which the GET failed, the next HEAD is answered 304, and the poll succeeds on an empty store that is not ready. |
| `GenericPolling.ReplacedTextIsSkippedLater` | src/fetcher/generic.rs:61-84 | A concrete run in which the origin changed between HEAD and GET and back, and the 304 leaves the other text installed. |
| `GenericPolling.WrongNotModifiedAllowed` | src/fetcher/generic.rs:57-72 | A strong origin allows all of those runs. |
| `PollerConvergence.ApplyConverges` | src/fetcher/policy.rs:19-27 | In permissive mode a compatible origin's text is always accepted, and the store then holds it, marked as loaded. |
| `PollerConvergence.TurnKeepsInStep` | src/fetcher/generic.rs:47-114 | Any poll, failed or passed, keeps for every poller that a remembered hash means the store holds its origin's text. |
| `PollerConvergence.PollersConverge` | src/fetcher/generic.rs:47-114 | Once each of three stable compatible origins has delivered its text, in any order and among any failures and 304s, the store holds the three texts and their engine, status and handles, and is ready. |
| `PollerConvergence.FreshStoreOpen` | src/fetcher/policy.rs:40-48 | A permissive server that configured its three sources meets the premises of that convergence. |
| `ForwardedFor.NetIsBlock` | src/middleware.rs:252-254 | An IPv4 network contains exactly the block of addresses that share its leading bits. |
| `ForwardedFor.NetIsBlock6` | src/middleware.rs:252-254 | The same for IPv6. |
| `ForwardedFor.FamiliarBlocks` | src/middleware.rs:252-254 | Prefixes 0, 8, 16, 24 and 32 are everything, 2^24, 65536 and 256 addresses, and one. |
| `ForwardedFor.BlanksIgnored` | src/middleware.rs:256-262 | Blanks around a token do not matter, and a blank token is no address. |
| `ForwardedFor.TokenForms` | src/middleware.rs:256-280 | A token is read as an address, else with a port, else in brackets. |
| `ForwardedFor.ScanIsWalk` | src/middleware.rs:231-250 | What one pass keeps is what the right-to-left walk past trusted proxies finds. |
| `ForwardedFor.ForwardedClientIp` | src/middleware.rs:231-250 | The nested loop returns the walk over the whole chain, and an error iff a line is not text or a token does not parse. |
| `ForwardedFor.PrefixIgnored` | src/middleware.rs:231-250 | Well-formed addresses put in front change nothing while some address is not trusted. |
| `ForwardedFor.ForgedLinesIgnored` | src/middleware.rs:216-250 | Header lines a client puts in front never change the resolved address while an untrusted one follows; malformed ones refuse the request. |
| `ForwardedFor.PeerDecides` | src/middleware.rs:216-229 | An untrusted peer is the client whatever the header says; behind a trusted one the answer is untrusted while the chain names such an address. |
| `ForwardedFor.AllTrusted` | src/middleware.rs:231-250 | If all are trusted the leftmost address is the answer. |
| `ForwardedFor.TokensOfSum` | src/middleware.rs:237-241 | Header lines are read in order as one list. |
| `ForwardedFor.LinesJoin` | src/middleware.rs:237-241 | Several header lines mean the same as one line joined by commas (RFC 9110, section 5.3). |
| `ForwardedFor.ResolvedIsUntrusted` | src/middleware.rs:231-250 | With an untrusted address present the answer is one, and everything to its right is trusted. |
| `ForwardedFor.ResolveClientIp` | src/middleware.rs:216-229 | The header is read only from a trusted peer; otherwise the peer is the client. |
| `Bearer.AlphabetExactly` | src/config.rs:402-418 | The token characters are the letters, the digits and the six marks of RFC 6750, section 2.1. |
| `Bearer.ValidBearerToken` | src/config.rs:402-418 | The loop accepts exactly b64token (RFC 6750, section 2.1). |
| `Bearer.BearerToken` | src/middleware.rs:192-206 | A token comes back iff there is exactly one textual value: the scheme in any case, one space, a b64token; missing iff there is no value. |
| `Bearer.EntriesExactly` | src/config.rs:347-362 | The entries are the pieces between the commas without surrounding blanks; a blank value has none. |
| `Bearer.ParseTokens` | src/config.rs:347-378 | Accepted iff every trimmed entry is a token, an empty entry reported first; the digests are those of the entries, each once. |
| `Bearer.Matches` | src/config.rs:386-395 | True iff the token's digest is one of the stored ones. |
| `Bearer.TokenAllowed` | src/config.rs:347-395 | With distinct digests, a token is let in iff it is a configured entry, whatever order or repetition. |
| `Admission.AddressIsItsOwnNet` | src/config.rs:310-323 | A configured address becomes a network that contains exactly itself. |
| `Admission.EntryExactly` | src/config.rs:282-322 | Nothing, a star and unreadable text are errors of their own; else a network as written, or an address as the network of itself. |
| `Admission.OpenExactly` | src/config.rs:272-280 | Unset, blank and a lone star among blanks mean open access, and nothing else. |
| `Admission.ProtectedExactly` | src/middleware.rs:182-184 | The metrics and everything of the API under its version prefix are protected, and nothing else. |
| `Admission.ParseEntries` | src/config.rs:282-295 | One network per entry in order, or the first bad entry's error. |
| `Admission.ParseAllowlist` | src/config.rs:272-297 | Open iff unset, blank or `*`; otherwise accepted iff every entry is a network or an address. |
| `Admission.ParseNetworkList` | src/config.rs:480-515 | Trusted proxies: unset and blank mean none; no wildcard; one network per entry. |
| `Admission.OneTokenCarried` | src/middleware.rs:192-206 | A header carries at most one token. |
| `Admission.Decide` | src/middleware.rs:80-139 | A protected request is admitted iff address rule and token rule both admit it, and each rejection reason is reported exactly under its condition. |
| `MetricLabels.AppendEncoded` | src/metrics.rs:282-295 | Appends the character itself, or the percent-encoded UTF-8 bytes of a percent sign or unsafe character. |
| `MetricLabels.EncodeInto` | src/metrics.rs:281-297 | Appends the encoding of the whole component to what is there. |
| `MetricLabels.DecodeOfEncode` | src/metrics.rs:281-297 | A percent-decoder undoes the encoding on every string, two-byte control characters included. |
| `MetricLabels.EncodeInjective` | src/metrics.rs:281-297 | Distinct components have distinct encodings. |
| `MetricLabels.EncodeSafe` | src/metrics.rs:281-297 | Encoded text has no quote, backslash or control character. |
| `MetricLabels.EscapedExactly` | src/metrics.rs:281-297 | Space to tilde and everything from U+00A0 on pass unchanged, except quote, percent sign and backslash; any other character becomes one or two percent triples. |
| `MetricLabels.TypeNameIsPath` | src/metrics.rs:251-272 | A name is accepted iff it is a `::` path of identifiers, none reserved. |
| `MetricLabels.IdentifierExactly` | src/metrics.rs:251-272 | The ten reserved words are no identifiers; any other is one iff it starts with a letter or underscore and goes on with those and digits. |
| `MetricLabels.SimplePartsExactly` | src/metrics.rs:236-249 | The splitter returns type and id iff the input is the canonical form of a valid type name and an escape-free id. |
| `MetricLabels.FastLabel` | src/metrics.rs:213-222 | A canonical action takes the fast path, whatever the parser would say. |
| `MetricLabels.LabelAlwaysSafe` | src/metrics.rs:213-234 | Whatever the action, its label has no quote, backslash or control character if the parser's type names have none. |
| `MetricLabels.SlowPathLabels` | src/metrics.rs:223-234 | Off the fast path the parser's type and id make the label, the id readable back; text that is no entity id is its own label, readable back. |
| `MetricLabels.SameTypeDistinctLabels` | src/metrics.rs:213-222 | With one type name distinct canonical action ids have distinct labels. |
| `MetricLabels.TypesCollideExactly` | src/metrics.rs:213-222 | Two types share a label exactly when the id under the shorter name starts with the rest of the longer name. |
| `MetricLabels.DistinctLabels` | src/metrics.rs:213-222 | Canonical actions whose ids hold no `::` have labels of their own. |
| `MetricLabels.TypesMayCollide` | src/metrics.rs:213-222 | Two concrete actions of different types with one label. |
| `ActionMetrics.CreateSound` | src/metrics.rs:652-655 | Creating a counter in its family moves no value and takes nothing back. |
| `ActionMetrics.SettleSound` | src/metrics.rs:652-655 | Storing the family's counter in the handle, once, moves no value. |
| `ActionMetrics.IncSound` | src/metrics.rs:652-655 | Counting through a handle adds one to its label's counter and to no other. |
| `ActionMetrics.AdvanceSound` | src/metrics.rs:617-674 | Every atomic step of an evaluation, creation and storage of a lazy counter apart, keeps the shared state sound and moves the counters exactly as the evaluation moves. |
| `ActionMetrics.ActSound` | src/metrics.rs:617-674 | Any interleaved step keeps every counter the tally of the evaluations past it. |
| `ActionMetrics.Run` | src/metrics.rs:617-674 | Every reachable state of every interleaving is sound. |
| `ActionMetrics.HandlesShared` | src/metrics.rs:617-636 | All evaluations of one action id that hold a handle hold the same one, labelled for that action. |
| `ActionMetrics.TotalMinusOutcomesInFlight` | src/metrics.rs:650-667 | At every moment total minus allowed minus denied is the number of evaluations in flight. |
| `ActionMetrics.QuiescentCountsArePlain` | src/metrics.rs:650-674 | Once all have returned, every counter is the plain count of the evaluations, however they interleaved. |
| `MetricsSinks.PrometheusMetricsSink.constructor` | src/metrics.rs:606-614 | A new sink has no handles and counts nothing. |
| `MetricsSinks.PrometheusMetricsSink.HandleFor` | src/metrics.rs:617-636 | Returns the cached handle, built on the first call only, and moves no counter. |
| `MetricsSinks.PrometheusMetricsSink.OpenCounter` | src/metrics.rs:652-655 | Creates the counter in its family at most once and stores it in the handle. |
| `MetricsSinks.PrometheusMetricsSink.Count` | src/metrics.rs:652-655 | Adds one to one counter of the handle's label and to no other. |
| `MetricsSinks.PrometheusMetricsSink.OnEvaluation` | src/metrics.rs:650-667 | One more in total and one more for the outcome under the action's label, nothing anywhere else. |
| `GitDescribe.ShaExactly` | src/build_info.rs:94-97 | A commit is seven or more hexadecimal digits with or without one g in front, which is dropped. |
| `GitDescribe.ShortDistance` | src/build_info.rs:103-103 | Every decimal of up to nineteen digits is a distance, with or without a plus sign. |
| `GitDescribe.LongDistance` | src/build_info.rs:103-103 | A decimal of more than twenty digits, the first not zero, is no distance. |
| `GitDescribe.FormatOfDescribe` | src/build_info.rs:99-108 | Describe output that is tag, distance and commit after its dirty suffix becomes `tag+n.gsha` with the mark. |
| `GitDescribe.DescribeIsRewritten` | src/build_info.rs:88-108 | That holds for every tag, dashes included, with or without a dirty suffix on the input. |
| `GitDescribe.RewrittenExactly` | src/build_info.rs:99-103 | The rewriting branch is taken exactly for the text of some tag, distance below 2^64 and commit. |
| `GitDescribe.VersionDetermines` | src/build_info.rs:104-106 | The version determines tag, decimal distance, short commit and dirtiness. |
| `GitDescribe.DirtyMarkAppended` | src/build_info.rs:83-120 | The dirty flag appends its mark to the version and changes nothing else. |
| `GitDescribe.BareCommit` | src/build_info.rs:110-113 | A bare commit becomes `0.0.0+g` and its short form. |
| `GitDescribe.ReleaseTag` | src/build_info.rs:115-118 | The tag of the package's own version, with any number of leading v, is shown with one v. |
| `GitDescribe.VersionForms` | src/build_info.rs:83-120 | Every describe output has one of four forms (tag with distance and commit, bare commit, the package's own tag behind any number of v, other text), and the form alone decides the version. |
| `GitDescribe.DirtySuffixIgnored` | src/build_info.rs:88-92 | A dirty suffix on non-empty output that had none never changes the version. |

## Left out

- HTTP plumbing: extractors, content types, response building, OpenAPI, logging, tracing spans, timers and sleeping. A poll is one step; the network is a reply given to it.
- Cedar parsing, validation and evaluation, the engine, label and bundle parsing and signatures, SHA-256, address parsing: functions of the library records.
- Engine preparation of bundles and the two-phase policy and schema uploads beyond their checks: policy and schema uploads are one step under the write lock, with the checks both phases make.
- Poisoning of the store's own read-write lock: every handler then answers an error without touching the store. Poisoning of the two cache mutexes is modelled.
- Record timestamps are parameters, the `size` field and error message texts are left out; an error keeps its kind and place in the order of checks.
- The policy count is a line heuristic of the source and stays an opaque function.
- Whether sorted namespaces mean the same to the engine: listings are only claimed at the normalised key.
- Schema, bundle and context failure counters, histograms, and the Prometheus encoding.
- `MetricLabels.DistinctLabels`: says nothing about actions that miss the fast path, because Cedar's parser decides their labels.
- `UpdateOrder.InterleavingAccepted`: permissive mode only, because strict mode refuses policies before a schema by design.
- `GenericPolling.StoreHoldsApplied`: needs sound cache mutexes and no other writer of the same text, because an upload may replace it at any time.
- `BundlePolling.StoreHoldsApplied`: needs no other writer, because any update or upload may replace the bundle.
- `PollerConvergence.PollersConverge`: permissive mode and no other writer; only listings run in between.
- `BundlePolling.SkipsOnlyAppliedContent`: speaks of what this poller applied last, not of what is installed, because uploads in between stay.
- Numeric limits of refresh intervals and entry counts: natural numbers here. The size limit and its saturating sum are modelled at 64 bits.
