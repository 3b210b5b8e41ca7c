/** The listing caches: what they hold is what the engine would list, over every call on the store. */
module ListingCaches {
  import opened Basics
  import opened Engines
  import opened StoreSpec
  import opened Coherence
  import Lru

  /** Every entry is the listing of the current engine at its key. */
  ghost predicate Fresh(lib: Libraries, engine: Engine, c: ListCache, form: ListForm) {
    forall e | e in c :: lib.list(form, engine, e.0) == Ok(e.1)
  }

  /** Both caches are small and duplicate-free; each is fresh while the mutexes that guard its clearing are sound. */
  ghost predicate CachesSound(lib: Libraries, engine: Engine, c: Caches) {
    && Lru.WellFormed(c.raw, CACHE_LIMIT) && Lru.WellFormed(c.json, CACHE_LIMIT)
    && (!c.rawPoisoned ==> Fresh(lib, engine, c.raw, RawForm))
    && (!c.rawPoisoned && !c.jsonPoisoned ==> Fresh(lib, engine, c.json, JsonForm))
  }

  lemma TouchSound(lib: Libraries, engine: Engine, c: Caches, form: ListForm, key: ListKey)
    requires CachesSound(lib, engine, c)
    ensures CachesSound(lib, engine, c.With(form, Lru.Touch(c.Of(form), key)))
  {
    Lru.TouchIsTransparent(c.Of(form), key, CACHE_LIMIT);
    Lru.TouchEntries(c.Of(form), key);
  }

  lemma PutSound(lib: Libraries, engine: Engine, c: Caches, form: ListForm, key: ListKey, value: Listing)
    requires CachesSound(lib, engine, c) && lib.list(form, engine, key) == Ok(value)
    ensures CachesSound(lib, engine, c.With(form, Lru.Put(c.Of(form), key, value, CACHE_LIMIT)))
  {
    Lru.PutWellFormed(c.Of(form), key, value, CACHE_LIMIT);
    Lru.PutEntries(c.Of(form), key, value, CACHE_LIMIT);
  }

  lemma SamePoliciesSound(lib: Libraries, engine: Engine, engine': Engine, c: Caches)
    requires ListsByPolicyText(lib) && engine.policies == engine'.policies
    requires CachesSound(lib, engine, c)
    ensures CachesSound(lib, engine', c)
  {}

  lemma ClearedSound(lib: Libraries, engine: Engine, engine': Engine, c: Caches)
    requires CachesSound(lib, engine, c)
    ensures CachesSound(lib, engine', c.Cleared())
  {}

  /** Every call keeps the caches sound; `set_schema` may, because listing looks at the policy text alone. */
  lemma StepCachesSound(lib: Libraries, s: Store, e: Event)
    requires EmptyTextIsNoDocument(lib) && ListsByPolicyText(lib) && SoundEvent(lib, e)
    requires Coherent(lib, s.active) && CachesSound(lib, s.active.engine, s.caches)
    ensures CachesSound(lib, Step(lib, s, e).0.active.engine, Step(lib, s, e).0.caches)
  {
    var s' := Step(lib, s, e).0;
    StepContent(lib, s, e);
    match e
    case UpdateDsl(_, _, _, _) => ClearedSound(lib, s.active.engine, s'.active.engine, s.caches);
    case UpdateLabels(_, _, _, _) => ClearedSound(lib, s.active.engine, s'.active.engine, s.caches);
    case InstallBundle(_, _, _, _, _, _) => ClearedSound(lib, s.active.engine, s'.active.engine, s.caches);
    case UpdateSchema(text, source, refresh, now) =>
      StepCoherent(lib, s, e);
      SamePoliciesSound(lib, s.active.engine, s'.active.engine, s.caches);
    case AnswerList(form, key) =>
      TouchSound(lib, s.active.engine, s.caches, form, key);
      var computed := lib.list(form, s.active.engine, key);
      if computed.Ok? { PutSound(lib, s.active.engine, s.caches, form, key, computed.value); }
    case _ =>
  }

  lemma {:induction false} RunCachesSound(lib: Libraries, s: Store, events: seq<Event>)
    requires EmptyTextIsNoDocument(lib) && ListsByPolicyText(lib) && SoundEvents(lib, events)
    requires Coherent(lib, s.active) && CachesSound(lib, s.active.engine, s.caches)
    ensures CachesSound(lib, Run(lib, s, events).active.engine, Run(lib, s, events).caches)
  {
    if events != [] {
      var n := |events| - 1;
      RunCachesSound(lib, s, events[..n]);
      RunCoherent(lib, s, events[..n]);
      StepCachesSound(lib, Run(lib, s, events[..n]), events[n]);
    }
  }

  /** After any run, a listing answers what the engine lists at the normalised key: always in raw form,
      and in JSON form unless the raw mutex is poisoned. */
  lemma {:induction false} ListingTransparent(lib: Libraries, events: seq<Event>, form: ListForm, key: ListKey)
    requires EmptyTextIsNoDocument(lib) && ListsByPolicyText(lib) && SoundEvents(lib, events)
    ensures var s := Run(lib, EMPTY_STORE, events);
            var answer := List(lib, s, form, key).1;
            && (answer.Ok? && (form.RawForm? || !s.caches.rawPoisoned) ==>
                  answer == lib.list(form, s.active.engine, key))
            && (answer.Err? ==> s.caches.Poisoned(form) || answer == lib.list(form, s.active.engine, key))
  {
    RunCachesSound(lib, EMPTY_STORE, events);
    Lru.LookupFinds(Run(lib, EMPTY_STORE, events).caches.Of(form), key);
  }

  /** After an accepted policy text, a key cached in JSON form is answered anew exactly when the raw mutex was
      sound; with that mutex poisoned the old answer stays, whatever the new policies are. */
  lemma JsonAnswerAfterUpdate(lib: Libraries, s: Store, text: Text, source: Option<Endpoint>, refresh: Option<nat>,
                              now: nat, key: ListKey)
    requires DslVerdict(lib, s.mode, s.active, text).Pass? && !s.caches.jsonPoisoned
    requires Lru.Lookup(s.caches.json, key).Some?
    ensures var s' := SetDsl(lib, s, text, source, refresh, now).0;
            List(lib, s', JsonForm, key).1 ==
            if s.caches.rawPoisoned then Ok(Lru.Lookup(s.caches.json, key).value)
            else lib.list(JsonForm, s'.active.engine, key)
  {}

  /** A library for the example below: it accepts every text and lists a text as itself. */
  const ECHO := Libraries(
    (t: Text) => t, (t: Text) => 0, (t: Text) => t != "", (t: Text) => Ok(0),
    (p: Text, s: Text) => Pass, (p: Text, s: Option<Text>) => Pass, (r: Registry) => Pass,
    (t: Text) => Err(InvalidBundle(t)), (l: Text, s: Text) => Pass,
    (b: ValidatedBundle, l: Layout) => Err(InvalidBundle("")),
    (f: ListForm, e: Engine, k: ListKey) => Ok(e.policies),
    (e: Engine) => e.policies,
    (e: Engine, r: string, c: Option<Context>) => Err(r),
    (c: Context) => Ok(0), (e: ServiceError) => "",
    (b: Bytes) => b, (b: Bytes) => Err(InvalidBundle("")))

  /** With a poisoned raw mutex an upload is published, reported as failed, and the JSON cache,
      never reached by the clearing, goes on answering for the old policies. */
  lemma PoisonedRawMutexLeavesJsonStale()
    ensures EmptyTextIsNoDocument(ECHO) && ListsByPolicyText(ECHO)
    ensures var key := ListKey("alice", [], []);
            var s := Step(ECHO, Step(ECHO, EMPTY_STORE, AnswerList(JsonForm, key)).0, Poison(RawForm)).0;
            var (s', outcome) := SetDsl(ECHO, s, "p", None, None, 1);
            && outcome.Fail? && s'.active.policies.content == "p"
            && List(ECHO, s', JsonForm, key).1 == Ok("")
            && ECHO.list(JsonForm, s'.active.engine, key) == Ok("p")
  {}
}
