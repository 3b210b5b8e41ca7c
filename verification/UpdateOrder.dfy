/** Policy, schema and label updates commute: only the last accepted text of each kind matters. */
module UpdateOrder {
  import opened Basics
  import opened Engines
  import opened StoreSpec
  import opened Coherence

  predicate Update(e: Event) {
    e.UpdateDsl? || e.UpdateSchema? || e.UpdateLabels?
  }

  ghost predicate Updates(events: seq<Event>) {
    forall e | e in events :: Update(e)
  }

  /** Every call of the run succeeds. */
  predicate AllAccepted(lib: Libraries, s: Store, events: seq<Event>) {
    events == [] ||
    (&& AllAccepted(lib, s, events[..|events| - 1])
     && Step(lib, Run(lib, s, events[..|events| - 1]), events[|events| - 1]).1.Pass?)
  }

  predicate OfKind(e: Event, kind: SourceKind) {
    match kind
    case Policies => e.UpdateDsl?
    case Schema => e.UpdateSchema?
    case Labels => e.UpdateLabels?
    case Bundle => false
  }

  /** The texts of one kind, in order. */
  function Stream(events: seq<Event>, kind: SourceKind): (texts: seq<Text>)
    requires Updates(events)
    ensures forall e | e in events && OfKind(e, kind) :: e.text in texts
  {
    if events == [] then []
    else
      var e := events[|events| - 1];
      Stream(events[..|events| - 1], kind) + (if OfKind(e, kind) then [e.text] else [])
  }

  function Last(initial: Text, texts: seq<Text>): Text {
    if texts == [] then initial else texts[|texts| - 1]
  }

  /** After accepted updates the store holds the last text of each stream. */
  lemma {:induction false} LastTextsStored(lib: Libraries, s: Store, events: seq<Event>)
    requires Updates(events) && AllAccepted(lib, s, events)
    ensures var a := Run(lib, s, events).active;
            && a.policies.content == Last(s.active.policies.content, Stream(events, Policies))
            && a.schema.content == Last(s.active.schema.content, Stream(events, Schema))
            && a.labels.content == Last(s.active.labels.content, Stream(events, Labels))
            && (s.active.bundle.None? || events != [] ==> a.bundle.None?)
  {
    if events != [] {
      var n := |events| - 1;
      var before := Run(lib, s, events[..n]);
      LastTextsStored(lib, s, events[..n]);
      assert Update(events[n]);
      StepContent(lib, before, events[n]);
      AcceptedInstalls(lib, before, events[n]);
    }
  }

  lemma AcceptedInstalls(lib: Libraries, s: Store, e: Event)
    requires Update(e) && Step(lib, s, e).1.Pass?
    ensures Installs(lib, s, e).Some?
    ensures var a := Installs(lib, s, e).value;
            && a.bundle.None?
            && a.policies.content == (if e.UpdateDsl? then e.text else s.active.policies.content)
            && a.schema.content == (if e.UpdateSchema? then e.text else s.active.schema.content)
            && a.labels.content == (if e.UpdateLabels? then e.text else s.active.labels.content)
  {}

  /** Two accepted runs that end on the same three texts end with the same engine and status; a bundle the store may
      hold at the start is dropped by the first update. */
  lemma {:induction false} OrderIndependent(lib: Libraries, s: Store, events: seq<Event>, events': seq<Event>)
    requires EmptyTextIsNoDocument(lib) && Coherent(lib, s.active)
    requires s.active.bundle.None? || (events != [] && events' != [])
    requires Updates(events) && AllAccepted(lib, s, events)
    requires Updates(events') && AllAccepted(lib, s, events')
    requires forall kind ::
      Last(Initial(s, kind), Stream(events, kind)) == Last(Initial(s, kind), Stream(events', kind))
    ensures var a, a' := Run(lib, s, events).active, Run(lib, s, events').active;
            a.engine == a'.engine && a.status == a'.status && a.labelers == a'.labelers
  {
    RunCoherent(lib, s, events);
    RunCoherent(lib, s, events');
    LastTextsStored(lib, s, events);
    LastTextsStored(lib, s, events');
    assert forall kind :: Initial(s, kind) == match kind
      case Policies => s.active.policies.content
      case Schema => s.active.schema.content
      case Labels => s.active.labels.content
      case Bundle => "";
    var a, a' := Run(lib, s, events).active, Run(lib, s, events').active;
    assert a.policies.content == Last(Initial(s, Policies), Stream(events, Policies)) == a'.policies.content;
    assert a.schema.content == Last(Initial(s, Schema), Stream(events, Schema)) == a'.schema.content;
    assert a.labels.content == Last(Initial(s, Labels), Stream(events, Labels)) == a'.labels.content;
    assert a.engine == a.engine.(layout := Monolithic) && a'.engine == a'.engine.(layout := Monolithic);
  }

  function Initial(s: Store, kind: SourceKind): Text {
    match kind
    case Policies => s.active.policies.content
    case Schema => s.active.schema.content
    case Labels => s.active.labels.content
    case Bundle => ""
  }

  // ----- Acceptance of every interleaving ---------------------------------------------------

  /** Every policy text compiles, alone and with any schema it validates against; every schema parses;
      every label set parses, registers and fits every schema. */
  ghost predicate Compatible(lib: Libraries, policies: seq<Text>, schemas: seq<Text>, labels: seq<Text>) {
    && (forall p | p in policies :: lib.compiles(p, None).Pass?)
    && (forall p, s | p in policies && s in schemas :: lib.validates(p, s).Pass? ==> lib.compiles(p, Some(s)).Pass?)
    && (forall s | s in schemas :: s != "" && lib.schemaParses(s) && lib.schemaEntries(s).Ok?)
    && (forall l | l in labels ::
          && l != "" && lib.parseLabels(l).Ok?
          && (LabelersOf(lib, l) != [] ==> lib.registers(Registry(lib.digest(l), LabelersOf(lib, l))).Pass?))
    && (forall l, s | l in labels && s in schemas :: lib.labelsFit(l, s).Pass?)
  }

  /** The update's text comes from its stream. */
  predicate Offered(e: Event, policies: seq<Text>, schemas: seq<Text>, labels: seq<Text>) {
    match e
    case UpdateDsl(text, _, _, _) => text in policies
    case UpdateSchema(text, _, _, _) => text in schemas
    case UpdateLabels(text, _, _, _) => text in labels
    case _ => false
  }

  ghost predicate Drawn(a: Active, policies: seq<Text>, schemas: seq<Text>, labels: seq<Text>) {
    && a.policies.content in policies
    && (a.schema.content != "" ==> a.schema.content in schemas)
    && (a.labels.content != "" ==> a.labels.content in labels)
  }

  lemma CompatibleUpdateAccepted(lib: Libraries, s: Store, e: Event, policies: seq<Text>, schemas: seq<Text>,
                                 labels: seq<Text>)
    requires EmptyTextIsNoDocument(lib) && Coherent(lib, s.active) && Receptive(s, policies, schemas, labels)
    requires Compatible(lib, policies, schemas, labels)
    requires Offered(e, policies, schemas, labels)
    ensures Step(lib, s, e).1.Pass?
  {}

  /** Permissive, with both cache mutexes sound, holding texts drawn from the streams. */
  ghost predicate Receptive(s: Store, policies: seq<Text>, schemas: seq<Text>, labels: seq<Text>) {
    s.mode.Permissive? && !s.caches.rawPoisoned && !s.caches.jsonPoisoned && Drawn(s.active, policies, schemas, labels)
  }

  lemma AcceptedUpdateKeepsReceptive(lib: Libraries, s: Store, e: Event, policies: seq<Text>, schemas: seq<Text>,
                                     labels: seq<Text>)
    requires Receptive(s, policies, schemas, labels) && Offered(e, policies, schemas, labels) && Step(lib, s, e).1.Pass?
    ensures Receptive(Step(lib, s, e).0, policies, schemas, labels)
  {}

  /** In permissive mode every interleaving of compatible policy, schema and label streams is accepted in full. */
  lemma {:induction false} InterleavingAccepted(lib: Libraries, events: seq<Event>, policies: seq<Text>,
                                                schemas: seq<Text>, labels: seq<Text>)
    requires EmptyTextIsNoDocument(lib)
    requires Compatible(lib, policies, schemas, labels) && "" in policies
    requires forall e | e in events :: Offered(e, policies, schemas, labels)
    ensures AllAccepted(lib, EMPTY_STORE, events)
    ensures Receptive(Run(lib, EMPTY_STORE, events), policies, schemas, labels)
  {
    if events != [] {
      var n := |events| - 1;
      var before, e := Run(lib, EMPTY_STORE, events[..n]), events[n];
      InterleavingAccepted(lib, events[..n], policies, schemas, labels);
      RunCoherent(lib, EMPTY_STORE, events[..n]);
      assert e in events;
      CompatibleUpdateAccepted(lib, before, e, policies, schemas, labels);
      AcceptedUpdateKeepsReceptive(lib, before, e, policies, schemas, labels);
    }
  }

  /** So any two interleavings of the same three compatible streams end with the same engine, status and labels. */
  lemma {:induction false} InterleavingsAgree(lib: Libraries, events: seq<Event>, events': seq<Event>)
    requires EmptyTextIsNoDocument(lib)
    requires Updates(events) && Updates(events')
    requires forall kind :: Stream(events, kind) == Stream(events', kind)
    requires Compatible(lib, Stream(events, Policies) + [""], Stream(events, Schema), Stream(events, Labels))
    ensures AllAccepted(lib, EMPTY_STORE, events) && AllAccepted(lib, EMPTY_STORE, events')
    ensures var a, a' := Run(lib, EMPTY_STORE, events).active, Run(lib, EMPTY_STORE, events').active;
            a.engine == a'.engine && a.status == a'.status && a.labelers == a'.labelers
  {
    var policies, schemas, labels := Stream(events, Policies) + [""], Stream(events, Schema), Stream(events, Labels);
    InterleavingAccepted(lib, events, policies, schemas, labels);
    assert policies == Stream(events', Policies) + [""] && schemas == Stream(events', Schema)
           && labels == Stream(events', Labels);
    InterleavingAccepted(lib, events', policies, schemas, labels);
    OrderIndependent(lib, EMPTY_STORE, events, events');
  }
}
