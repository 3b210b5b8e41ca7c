/** The bundle poller: conditional requests, the hash skip, and what its validators vouch for. */
module BundlePolling {
  import opened Basics
  import opened Engines
  import opened StoreSpec
  import opened Coherence
  import opened BoundedBody
  import opened Readiness

  datatype Validators = Validators(etag: Option<string>, lastModified: Option<string>)

  const NO_VALIDATORS := Validators(None, None)

  /** What the poller remembers between polls. */
  datatype Memory = Memory(validators: Validators, archiveSha: Option<string>)

  const FRESH := Memory(NO_VALIDATORS, None)

  datatype Reply =
    | Unreachable
    | NotModified
    | Refused(status: nat)
    | Body(contentLength: Option<nat>, validators: Validators, chunks: seq<Chunk>)

  datatype Settings = Settings(url: Endpoint, every: nat, limit: nat, layout: Layout)

  /** What the request yields before the store is involved. */
  datatype Fetched =
    | Nothing(error: ServiceError)
    | AlreadyKnown(memory: Memory)
    | NewArchive(bytes: Bytes, memory: Memory)

  function ReadError(e: StreamError): ServiceError {
    if e.SizeLimit? then BundleTooLarge else InvalidBundle("stream")
  }

  function Fetch(lib: Libraries, c: Settings, m: Memory, reply: Reply): Fetched {
    match reply
    case Unreachable => Nothing(InvalidBundle("fetch"))
    case NotModified => AlreadyKnown(m)
    case Refused(_) => Nothing(InvalidBundle("status"))
    case Body(contentLength, validators, chunks) =>
      (match ReadResult(c.limit, contentLength, chunks)
       case Err(e) => Nothing(ReadError(e))
       case Ok(bytes) =>
         var sha := Hex(lib.sha256(bytes));
         if m.archiveSha == Some(sha) then AlreadyKnown(m.(validators := validators))
         else NewArchive(bytes, Memory(validators, Some(sha))))
  }

  function PrepareArchive(lib: Libraries, c: Settings, bytes: Bytes, mode: SchemaMode,
                          now: nat): Result<PreparedBundle, ServiceError>
  {
    match lib.openArchive(bytes)
    case Err(e) => Err(e)
    case Ok(b) => Prepare(lib, b, Some(c.url), Some(c.every), mode, c.layout, now)
  }

  /** One poll.  `mode` is the schema mode read before preparation; the store is the one met at the write lock,
      which other requests may have changed in between. */
  function Poll(lib: Libraries, c: Settings, m: Memory, s: Store, mode: SchemaMode, reply: Reply,
                now: nat): (Memory, Store, Outcome)
  {
    match Fetch(lib, c, m, reply)
    case Nothing(e) => (m, s, Fail(e))
    case AlreadyKnown(m') => (m', s, Pass)
    case NewArchive(bytes, m') =>
      (match PrepareArchive(lib, c, bytes, mode, now)
       case Err(e) => (m, s, Fail(e))
       case Ok(prepared) =>
         var (s', outcome) := ThenMark(ApplyPrepared(s, prepared), Bundle);
         if outcome.Fail? then (m, s', outcome) else (m', s', Pass))
  }

  /** The poll installed the body it fetched. */
  predicate Applies(lib: Libraries, c: Settings, m: Memory, s: Store, mode: SchemaMode, reply: Reply, now: nat) {
    Fetch(lib, c, m, reply).NewArchive? && Poll(lib, c, m, s, mode, reply, now).2.Pass?
  }

  /** A failed poll changes neither what the poller remembers nor the store, so the same body is tried again:
      its digest is still not the remembered one. */
  lemma FailedPollChangesNothing(lib: Libraries, c: Settings, m: Memory, s: Store, mode: SchemaMode, reply: Reply,
                                 now: nat)
    requires Poll(lib, c, m, s, mode, reply, now).2.Fail?
    ensures Poll(lib, c, m, s, mode, reply, now).0 == m
    ensures Poll(lib, c, m, s, mode, reply, now).1.(caches := s.caches) == s
    ensures !s.caches.rawPoisoned && !s.caches.jsonPoisoned ==> Poll(lib, c, m, s, mode, reply, now).1 == s
    ensures Fetch(lib, c, m, reply).NewArchive? ==>
              Fetch(lib, c, Poll(lib, c, m, s, mode, reply, now).0, reply) == Fetch(lib, c, m, reply)
  {}

  /** What a poll remembers: a passing poll with a body adopts that reply's validators and that body's digest; a 304
      keeps everything as it was. */
  lemma PassedPollRemembers(lib: Libraries, c: Settings, m: Memory, s: Store, mode: SchemaMode, reply: Reply, now: nat)
    requires Poll(lib, c, m, s, mode, reply, now).2.Pass?
    ensures var m' := Poll(lib, c, m, s, mode, reply, now).0;
            match reply
            case Body(declared, validators, chunks) =>
              && m'.validators == validators
              && ReadResult(c.limit, declared, chunks).Ok?
              && m'.archiveSha == Some(Hex(lib.sha256(ReadResult(c.limit, declared, chunks).value)))
            case NotModified => m' == m
            case _ => false
  {}

  /** Why a poll fails before it reaches the store: no answer, a refusal, a body that breaks or is over the limit, or an
      archive that is not a bundle. */
  lemma PollFailures(lib: Libraries, c: Settings, m: Memory, s: Store, mode: SchemaMode, reply: Reply, now: nat)
    ensures reply.Unreachable? ==> Poll(lib, c, m, s, mode, reply, now) == (m, s, Fail(InvalidBundle("fetch")))
    ensures reply.Refused? ==> Poll(lib, c, m, s, mode, reply, now) == (m, s, Fail(InvalidBundle("status")))
    ensures reply.Body? && ReadResult(c.limit, reply.contentLength, reply.chunks) == Err(SizeLimit) ==>
              Poll(lib, c, m, s, mode, reply, now) == (m, s, Fail(BundleTooLarge))
    ensures reply.Body? && ReadResult(c.limit, reply.contentLength, reply.chunks) == Err(Broken) ==>
              Poll(lib, c, m, s, mode, reply, now) == (m, s, Fail(InvalidBundle("stream")))
    ensures reply.Body? && ReadResult(c.limit, reply.contentLength, reply.chunks).Ok? ==>
              var bytes := ReadResult(c.limit, reply.contentLength, reply.chunks).value;
              m.archiveSha != Some(Hex(lib.sha256(bytes))) && lib.openArchive(bytes).Err? ==>
                Poll(lib, c, m, s, mode, reply, now) == (m, s, Fail(lib.openArchive(bytes).error))
  {}

  /** A poll that applies installs the fetched bundle, prepared under the mode it read and in its own layout, with the
      poller's address and interval as the origin. */
  lemma AppliedPollInstalls(lib: Libraries, c: Settings, m: Memory, s: Store, mode: SchemaMode, reply: Reply, now: nat)
    requires Applies(lib, c, m, s, mode, reply, now)
    ensures var s' := Poll(lib, c, m, s, mode, reply, now).1;
            && reply.Body? && ReadResult(c.limit, reply.contentLength, reply.chunks).Ok?
            && var archive := lib.openArchive(ReadResult(c.limit, reply.contentLength, reply.chunks).value);
               && archive.Ok?
               && Prepare(lib, archive.value, Some(c.url), Some(c.every), mode, c.layout, now) == Ok(s'.active)
               && s'.remote.bundle.loaded
  {}

  // ----- Histories --------------------------------------------------------------------------

  /** What the origin holds at one moment. */
  datatype Representation = Representation(body: Bytes, validators: Validators)

  /** One poll in its surroundings: what others did to the store before it reached the write lock,
      and what the origin held when it replied. */
  datatype Visit = Visit(others: seq<Event>, mode: SchemaMode, current: Representation, reply: Reply, now: nat)

  datatype World = World(memory: Memory, store: Store, applied: Option<Bytes>)

  function Next(lib: Libraries, c: Settings, w: World, v: Visit): World {
    var s := Run(lib, w.store, v.others);
    var (memory, store, _) := Poll(lib, c, w.memory, s, v.mode, v.reply, v.now);
    World(memory, store,
          if Applies(lib, c, w.memory, s, v.mode, v.reply, v.now) then Some(v.current.body) else w.applied)
  }

  function After(lib: Libraries, c: Settings, w: World, visits: seq<Visit>): World {
    if visits == [] then w else Next(lib, c, After(lib, c, w, visits[..|visits| - 1]), visits[|visits| - 1])
  }

  /** From the poller's start. */
  function WorldAfter(lib: Libraries, c: Settings, s: Store, visits: seq<Visit>): World {
    After(lib, c, World(FRESH, s, None), visits)
  }

  /** A reply with a body that arrives whole brings the current representation. */
  ghost predicate Faithful(v: Visit) {
    v.reply.Body? ==>
      && v.reply.validators == v.current.validators
      && (Delivered(v.reply.chunks) ==> Concat(v.reply.chunks) == v.current.body)
  }

  /** The visit shows that these validators belonged to this body. */
  predicate Shows(v: Visit, validators: Validators, body: Bytes) {
    v.reply.Body? && v.current == Representation(body, validators)
  }

  /** Validators are strong (RFC 9110, sections 8.8 and 13.1): 304 answers only a conditional request, and
      only while the body is the one that was sent with the request's validators. */
  ghost predicate StrongOrigin(lib: Libraries, c: Settings, s: Store, visits: seq<Visit>) {
    forall j | 0 <= j < |visits| ::
      && Faithful(visits[j])
      && (visits[j].reply.NotModified? ==>
            var sent := WorldAfter(lib, c, s, visits[..j]).memory.validators;
            && sent != NO_VALIDATORS
            && forall i, body | 0 <= i < j && Shows(visits[i], sent, body) :: body == visits[j].current.body)
  }

  /** The remembered digest is that of the body applied last, and remembered validators came with a body of that
      digest. */
  ghost predicate MemoryVouched(lib: Libraries, w: World, visits: seq<Visit>) {
    && (w.memory.archiveSha.Some? <==> w.applied.Some?)
    && (w.applied.Some? ==> w.memory.archiveSha == Some(Hex(lib.sha256(w.applied.value))))
    && (w.memory.validators != NO_VALIDATORS ==>
          exists i, body :: 0 <= i < |visits| && Shows(visits[i], w.memory.validators, body)
                            && w.memory.archiveSha == Some(Hex(lib.sha256(body))))
  }

  lemma FetchedBodyIsCurrent(lib: Libraries, c: Settings, m: Memory, v: Visit)
    requires Faithful(v) && v.reply.Body? && c.limit <= USIZE_MAX
    requires !Fetch(lib, c, m, v.reply).Nothing?
    ensures ReadResult(c.limit, v.reply.contentLength, v.reply.chunks) == Ok(v.current.body)
  {
    if !Delivered(v.reply.chunks) {
      BrokenBodyRefused(c.limit, v.reply.contentLength, v.reply.chunks);
    } else {
      DeliveredBody(c.limit, v.reply.chunks);
    }
  }

  lemma {:induction false} PollerMemory(lib: Libraries, c: Settings, s: Store, visits: seq<Visit>)
    requires c.limit <= USIZE_MAX
    requires forall v | v in visits :: Faithful(v)
    ensures MemoryVouched(lib, WorldAfter(lib, c, s, visits), visits)
  {
    if visits != [] {
      var n := |visits| - 1;
      var w, v, w' := WorldAfter(lib, c, s, visits[..n]), visits[n], WorldAfter(lib, c, s, visits);
      PollerMemory(lib, c, s, visits[..n]);
      assert v in visits;
      if v.reply.Body? && !Fetch(lib, c, w.memory, v.reply).Nothing? {
        FetchedBodyIsCurrent(lib, c, w.memory, v);
        if w'.memory != w.memory {
          assert Shows(visits[n], w'.memory.validators, v.current.body);
        }
      }
      if w'.memory == w.memory && w.memory.validators != NO_VALIDATORS {
        var i, body :| 0 <= i < n && Shows(visits[..n][i], w.memory.validators, body)
                       && w.memory.archiveSha == Some(Hex(lib.sha256(body)));
        assert Shows(visits[i], w'.memory.validators, body);
      }
    }
  }

  /** A poll that succeeds without applying, by 304 or by digest, meets a body this poller has already applied,
      and has applied last. */
  lemma SkipsOnlyAppliedContent(lib: Libraries, c: Settings, s: Store, visits: seq<Visit>, j: nat)
    requires c.limit <= USIZE_MAX && DigestsDistinguish(lib) && StrongOrigin(lib, c, s, visits) && j < |visits|
    requires var w := WorldAfter(lib, c, s, visits[..j]);
             var met := Run(lib, w.store, visits[j].others);
             && Poll(lib, c, w.memory, met, visits[j].mode, visits[j].reply, visits[j].now).2.Pass?
             && !Applies(lib, c, w.memory, met, visits[j].mode, visits[j].reply, visits[j].now)
    ensures WorldAfter(lib, c, s, visits[..j]).applied == Some(visits[j].current.body)
  {
    var w, v := WorldAfter(lib, c, s, visits[..j]), visits[j];
    PollerMemory(lib, c, s, visits[..j]);
    if v.reply.NotModified? {
      var i, body :| 0 <= i < j && Shows(visits[..j][i], w.memory.validators, body)
                     && w.memory.archiveSha == Some(Hex(lib.sha256(body)));
      assert Shows(visits[i], w.memory.validators, body);
      HexInjective(lib.sha256(body), lib.sha256(w.applied.value));
    } else {
      FetchedBodyIsCurrent(lib, c, w.memory, v);
      HexInjective(lib.sha256(v.current.body), lib.sha256(w.applied.value));
    }
  }

  // ----- Convergence ------------------------------------------------------------------------

  /** The poller holds the digest of this body. */
  predicate Settled(lib: Libraries, m: Memory, body: Bytes) {
    m.archiveSha == Some(Hex(lib.sha256(body)))
  }

  /** A complete, acceptable reply about a valid archive settles the poller in one poll, whatever came before;
      if the body is new to it, the store then holds that archive. */
  lemma OnePollSettles(lib: Libraries, c: Settings, m: Memory, s: Store, v: Visit)
    requires Faithful(v) && v.reply.Body? && c.limit <= USIZE_MAX
    requires ReadResult(c.limit, v.reply.contentLength, v.reply.chunks).Ok?
    requires PrepareArchive(lib, c, v.current.body, v.mode, v.now).Ok?
    requires ApplyPrepared(s, PrepareArchive(lib, c, v.current.body, v.mode, v.now).value).1.Pass?
    ensures var (m', s', outcome) := Poll(lib, c, m, s, v.mode, v.reply, v.now);
            && outcome.Pass? && Settled(lib, m', v.current.body)
            && (!Settled(lib, m, v.current.body) ==>
                  s'.active == PrepareArchive(lib, c, v.current.body, v.mode, v.now).value && s'.remote.bundle.loaded)
  {
    FetchedBodyIsCurrent(lib, c, m, v);
  }

  /** From then on, while the origin keeps that body, no poll touches the store, whatever the store holds:
      a bundle uploaded meanwhile stays. */
  lemma SettledPollsLeaveStore(lib: Libraries, c: Settings, m: Memory, s: Store, v: Visit)
    requires Settled(lib, m, v.current.body) && Faithful(v) && c.limit <= USIZE_MAX
    ensures var (m', s', _) := Poll(lib, c, m, s, v.mode, v.reply, v.now);
            s' == s && Settled(lib, m', v.current.body)
  {
    if v.reply.Body? && !Fetch(lib, c, m, v.reply).Nothing? {
      FetchedBodyIsCurrent(lib, c, m, v);
    }
  }

  /** The store had the poller not been there. */
  function OthersOnly(lib: Libraries, s: Store, visits: seq<Visit>): Store {
    if visits == [] then s else Run(lib, OthersOnly(lib, s, visits[..|visits| - 1]), visits[|visits| - 1].others)
  }

  /** Over every run of later polls, failed ones included, the store is what the others alone make of it. */
  lemma {:induction false} SettledPollerIsInvisible(lib: Libraries, c: Settings, w: World, visits: seq<Visit>,
                                                    body: Bytes)
    requires Settled(lib, w.memory, body) && c.limit <= USIZE_MAX
    requires forall v | v in visits :: Faithful(v) && v.current.body == body
    ensures After(lib, c, w, visits).store == OthersOnly(lib, w.store, visits)
    ensures Settled(lib, After(lib, c, w, visits).memory, body)
  {
    if visits != [] {
      var n := |visits| - 1;
      SettledPollerIsInvisible(lib, c, w, visits[..n], body);
      assert visits[n] in visits;
      var before := After(lib, c, w, visits[..n]);
      SettledPollsLeaveStore(lib, c, before.memory, Run(lib, before.store, visits[n].others), visits[n]);
    }
  }

  // ----- What the store holds ---------------------------------------------------------------

  /** The event neither updates a component nor installs a bundle nor configures the bundle source. */
  predicate LeavesBundle(e: Event) {
    match e
    case UpdateDsl(_, _, _, _) => false
    case UpdateSchema(_, _, _, _) => false
    case UpdateLabels(_, _, _, _) => false
    case InstallBundle(_, _, _, _, _, _) => false
    case Configure(kind, _, _) => !kind.Bundle?
    case _ => true
  }

  /** The store holds this prepared content, up to metadata origins, and the bundle source counts as loaded. */
  predicate HoldsPrepared(s: Store, p: PreparedBundle) {
    SameContent(p, s.active) && s.remote.bundle.loaded
  }

  lemma StepKeepsBundle(lib: Libraries, s: Store, e: Event, p: PreparedBundle)
    requires LeavesBundle(e) && HoldsPrepared(s, p)
    ensures HoldsPrepared(Step(lib, s, e).0, p)
  {
    StepContent(lib, s, e);
  }

  lemma {:induction false} RunKeepsBundle(lib: Libraries, s: Store, events: seq<Event>, p: PreparedBundle)
    requires (forall e | e in events :: LeavesBundle(e)) && HoldsPrepared(s, p)
    ensures HoldsPrepared(Run(lib, s, events), p)
  {
    if events != [] {
      var n := |events| - 1;
      RunKeepsBundle(lib, s, events[..n], p);
      StepKeepsBundle(lib, Run(lib, s, events[..n]), events[n], p);
    }
  }

  /** A poll that does not apply keeps what the store holds, whether it passes or fails. */
  lemma OtherPollKeepsBundle(lib: Libraries, c: Settings, m: Memory, s: Store, v: Visit, p: PreparedBundle)
    requires HoldsPrepared(s, p) && !Applies(lib, c, m, s, v.mode, v.reply, v.now)
    ensures HoldsPrepared(Poll(lib, c, m, s, v.mode, v.reply, v.now).1, p)
  {
    if Poll(lib, c, m, s, v.mode, v.reply, v.now).2.Fail? {
      FailedPollChangesNothing(lib, c, m, s, v.mode, v.reply, v.now);
    }
  }

  lemma AppliedPollHoldsBundle(lib: Libraries, c: Settings, m: Memory, s: Store, v: Visit)
    requires Faithful(v) && c.limit <= USIZE_MAX && Applies(lib, c, m, s, v.mode, v.reply, v.now)
    ensures var prepared := PrepareArchive(lib, c, v.current.body, v.mode, v.now);
            prepared.Ok? && HoldsPrepared(Poll(lib, c, m, s, v.mode, v.reply, v.now).1, prepared.value)
  {
    FetchedBodyIsCurrent(lib, c, m, v);
  }

  ghost predicate LeftAlone(visits: seq<Visit>) {
    forall v, e | v in visits && e in v.others :: LeavesBundle(e)
  }

  /** The store holds what this body became when one of the visits prepared it. */
  ghost predicate HoldsArchive(lib: Libraries, c: Settings, s: Store, visits: seq<Visit>, body: Bytes) {
    exists i :: 0 <= i < |visits| && HoldsFrom(lib, c, s, visits[i], body)
  }

  predicate HoldsFrom(lib: Libraries, c: Settings, s: Store, v: Visit, body: Bytes) {
    var prepared := PrepareArchive(lib, c, body, v.mode, v.now);
    prepared.Ok? && HoldsPrepared(s, prepared.value)
  }

  /** While nobody else updates or installs, the store holds what the poller applied last, marked as loaded. */
  lemma {:induction false} StoreHoldsApplied(lib: Libraries, c: Settings, s: Store, visits: seq<Visit>)
    requires c.limit <= USIZE_MAX && LeftAlone(visits) && forall v | v in visits :: Faithful(v)
    ensures var w := WorldAfter(lib, c, s, visits);
            w.applied.Some? ==> HoldsArchive(lib, c, w.store, visits, w.applied.value)
  {
    if visits != [] {
      var n := |visits| - 1;
      var w, v := WorldAfter(lib, c, s, visits[..n]), visits[n];
      var met := Run(lib, w.store, v.others);
      var w' := WorldAfter(lib, c, s, visits);
      StoreHoldsApplied(lib, c, s, visits[..n]);
      assert v in visits;
      if Applies(lib, c, w.memory, met, v.mode, v.reply, v.now) {
        AppliedPollHoldsBundle(lib, c, w.memory, met, v);
        assert HoldsFrom(lib, c, w'.store, visits[n], v.current.body);
      } else if w.applied.Some? {
        var i :| 0 <= i < n && HoldsFrom(lib, c, w.store, visits[..n][i], w.applied.value);
        var p := PrepareArchive(lib, c, w.applied.value, visits[i].mode, visits[i].now).value;
        RunKeepsBundle(lib, w.store, v.others, p);
        OtherPollKeepsBundle(lib, c, w.memory, met, v, p);
        assert HoldsFrom(lib, c, w'.store, visits[i], w.applied.value);
      }
    }
  }

  /** So, with strong validators and no other writer, every passing poll leaves the store holding the origin's current
      bundle, whether it fetched that bundle or skipped it. */
  lemma PassedPollHoldsCurrent(lib: Libraries, c: Settings, s: Store, visits: seq<Visit>, j: nat)
    requires c.limit <= USIZE_MAX && DigestsDistinguish(lib) && StrongOrigin(lib, c, s, visits) && j < |visits|
    requires LeftAlone(visits[..j + 1])
    ensures var w, v := WorldAfter(lib, c, s, visits[..j]), visits[j];
            Poll(lib, c, w.memory, Run(lib, w.store, v.others), v.mode, v.reply, v.now).2.Pass? ==>
              HoldsArchive(lib, c, WorldAfter(lib, c, s, visits[..j + 1]).store, visits[..j + 1], v.current.body)
  {
    var w, v := WorldAfter(lib, c, s, visits[..j]), visits[j];
    var met := Run(lib, w.store, v.others);
    if Poll(lib, c, w.memory, met, v.mode, v.reply, v.now).2.Pass? {
      assert visits[..j + 1][..j] == visits[..j];
      if !Applies(lib, c, w.memory, met, v.mode, v.reply, v.now) {
        SkipsOnlyAppliedContent(lib, c, s, visits, j);
      }
      StoreHoldsApplied(lib, c, s, visits[..j + 1]);
    }
  }
}
