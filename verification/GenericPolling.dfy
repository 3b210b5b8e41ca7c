/** The component pollers (policies, labels, schema): HEAD, GET, digest, apply.  They remember the validators
    of the HEAD answer before the body is fetched and applied. */
module GenericPolling {
  import opened Basics
  import opened Engines
  import opened StoreSpec
  import opened Coherence
  import opened Readiness
  import opened BundlePolling
  import opened ListingCaches

  datatype HeadReply =
    | HeadUnreachable
    | HeadNotModified
    | HeadOk(validators: Validators)
    | HeadRefused(status: nat)

  datatype GetReply =
    | GetUnreachable
    | GetRefused(status: nat)
    | GetBroken
    | GetText(text: Text)

  /** `apply_successful_response` of the three adapters. */
  function Apply(lib: Libraries, s: Store, kind: SourceKind, text: Text, now: nat): (Store, Outcome)
    requires !kind.Bundle?
  {
    ThenMark(match kind
             case Policies => SetDsl(lib, s, text, None, None, now)
             case Labels => SetLabels(lib, s, text, None, None, now)
             case Schema => SetSchema(lib, s, text, None, None, now),
             kind)
  }

  /** `Memory.archiveSha` is here the adapter's body hash. */
  function PollText(lib: Libraries, kind: SourceKind, m: Memory, s: Store, head: HeadReply, get: GetReply,
                    now: nat): (Memory, Store, Outcome)
    requires !kind.Bundle?
  {
    var adopted := if head.HeadOk? then m.(validators := head.validators) else m;
    if head.HeadUnreachable? then (m, s, Fail(EvaluationError("fetch")))
    else if head.HeadNotModified? then (m, s, Pass)
    else if !get.GetText? then (adopted, s, Fail(EvaluationError("fetch")))
    else if m.archiveSha == Some(lib.digest(get.text)) then (adopted, s, Pass)
    else
      var (s', outcome) := Apply(lib, s, kind, get.text, now);
      if outcome.Fail? then (adopted, s', outcome)
      else (adopted.(archiveSha := Some(lib.digest(get.text))), s', Pass)
  }

  /** The poll gets as far as the store, and the store accepts the text. */
  predicate AppliesText(lib: Libraries, kind: SourceKind, m: Memory, s: Store, head: HeadReply, get: GetReply, now: nat)
    requires !kind.Bundle?
  {
    && !head.HeadUnreachable? && !head.HeadNotModified? && get.GetText?
    && m.archiveSha != Some(lib.digest(get.text))
    && Apply(lib, s, kind, get.text, now).1.Pass?
  }

  predicate Unpoisoned(s: Store) {
    !s.caches.rawPoisoned && !s.caches.jsonPoisoned
  }

  lemma AppliedTextInstalled(lib: Libraries, s: Store, kind: SourceKind, text: Text, now: nat)
    requires !kind.Bundle? && Apply(lib, s, kind, text, now).1.Pass?
    ensures var s' := Apply(lib, s, kind, text, now).0;
            RecordOf(s'.active, kind).content == text && s'.remote.Of(kind).loaded
  {}

  lemma RefusedTextKeepsStore(lib: Libraries, s: Store, kind: SourceKind, text: Text, now: nat)
    requires !kind.Bundle? && Unpoisoned(s) && Apply(lib, s, kind, text, now).1.Fail?
    ensures Apply(lib, s, kind, text, now).0 == s
  {}

  lemma ApplyNeverPoisons(lib: Libraries, s: Store, kind: SourceKind, text: Text, now: nat)
    requires !kind.Bundle? && Unpoisoned(s)
    ensures Unpoisoned(Apply(lib, s, kind, text, now).0)
  {}

  /** A poll that applies leaves its text in the store, the source loaded and the text's hash remembered; with the
      cache mutexes sound, any other poll, passed or failed, leaves store and hash as they were. */
  lemma PollInstallsExactly(lib: Libraries, kind: SourceKind, m: Memory, s: Store, head: HeadReply, get: GetReply,
                            now: nat)
    requires !kind.Bundle?
    ensures var (m', s', outcome) := PollText(lib, kind, m, s, head, get, now);
            && (AppliesText(lib, kind, m, s, head, get, now) ==>
                  && outcome.Pass? && m'.archiveSha == Some(lib.digest(get.text))
                  && RecordOf(s'.active, kind).content == get.text && s'.remote.Of(kind).loaded)
            && (!AppliesText(lib, kind, m, s, head, get, now) ==> m'.archiveSha == m.archiveSha)
            && (!AppliesText(lib, kind, m, s, head, get, now) && Unpoisoned(s) ==> s' == s)
            && (Unpoisoned(s) ==> Unpoisoned(s'))
  {}

  /** How a poll fails: no answer to HEAD, no text from GET, or the store's own refusal, which it reports. */
  lemma PollFailsExactly(lib: Libraries, kind: SourceKind, m: Memory, s: Store, head: HeadReply, get: GetReply,
                         now: nat)
    requires !kind.Bundle?
    ensures var outcome := PollText(lib, kind, m, s, head, get, now).2;
            if head.HeadUnreachable? then outcome == Fail(EvaluationError("fetch"))
            else if head.HeadNotModified? then outcome == Pass
            else if !get.GetText? then outcome == Fail(EvaluationError("fetch"))
            else outcome == if m.archiveSha == Some(lib.digest(get.text)) then Pass
                            else Apply(lib, s, kind, get.text, now).1
    ensures head.HeadUnreachable? || head.HeadNotModified? ==> PollText(lib, kind, m, s, head, get, now).0 == m
  {}

  // ----- Histories --------------------------------------------------------------------------

  /** One poll and its surroundings.  `current` is what the origin holds at HEAD; what GET brings may be newer. */
  datatype TextVisit = TextVisit(others: seq<Event>, current: Text, head: HeadReply, get: GetReply, now: nat)

  /** `applied`: the text of the last accepted update by this poller.  `shown`: what the origin held at the last
      HEAD it answered with success.  `taken`: the text fetched by the last poll that fetched one and succeeded. */
  datatype TextWorld = TextWorld(memory: Memory, store: Store, applied: Option<Text>, shown: Option<Text>,
                                 taken: Option<Text>)

  function NextText(lib: Libraries, kind: SourceKind, w: TextWorld, v: TextVisit): TextWorld
    requires !kind.Bundle?
  {
    var s := Run(lib, w.store, v.others);
    var (memory, store, outcome) := PollText(lib, kind, w.memory, s, v.head, v.get, v.now);
    TextWorld(memory, store,
              if AppliesText(lib, kind, w.memory, s, v.head, v.get, v.now) then Some(v.get.text) else w.applied,
              if v.head.HeadOk? then Some(v.current) else w.shown,
              if outcome.Pass? && v.get.GetText? && !v.head.HeadNotModified? then Some(v.get.text) else w.taken)
  }

  function TextWorldAfter(lib: Libraries, kind: SourceKind, s: Store, visits: seq<TextVisit>): TextWorld
    requires !kind.Bundle?
  {
    if visits == [] then TextWorld(FRESH, s, None, None, None)
    else NextText(lib, kind, TextWorldAfter(lib, kind, s, visits[..|visits| - 1]), visits[|visits| - 1])
  }

  lemma OneMoreVisit(lib: Libraries, kind: SourceKind, s: Store, visits: seq<TextVisit>, j: nat)
    requires !kind.Bundle? && j < |visits|
    ensures TextWorldAfter(lib, kind, s, visits[..j + 1])
            == NextText(lib, kind, TextWorldAfter(lib, kind, s, visits[..j]), visits[j])
  {
    assert visits[..j + 1][..j] == visits[..j];
  }

  ghost predicate TextDigestsDistinguish(lib: Libraries) {
    forall t: Text, t': Text :: lib.digest(t) == lib.digest(t') ==> t == t'
  }

  /** As for bundles: 304 answers only a conditional request, while the text is the one shown with its validators. */
  ghost predicate StrongTextOrigin(lib: Libraries, kind: SourceKind, s: Store, visits: seq<TextVisit>)
    requires !kind.Bundle?
  {
    forall j | 0 <= j < |visits| ::
      visits[j].head.HeadNotModified? ==>
        var sent := TextWorldAfter(lib, kind, s, visits[..j]).memory.validators;
        && sent != NO_VALIDATORS
        && forall i | 0 <= i < j && visits[i].head == HeadOk(sent) :: visits[i].current == visits[j].current
  }

  function HashOf(lib: Libraries, text: Option<Text>): Option<Digest> {
    match text case None => None case Some(t) => Some(lib.digest(t))
  }

  /** The hash is that of the text applied last, which is the text taken last. */
  ghost predicate HashVouched(lib: Libraries, w: TextWorld) {
    w.memory.archiveSha == HashOf(lib, w.applied) && w.taken == w.applied
  }

  /** The validators are those of the last HEAD answered with success. */
  ghost predicate ValidatorsVouched(w: TextWorld, visits: seq<TextVisit>) {
    match w.shown
    case None => w.memory.validators == NO_VALIDATORS
    case Some(text) =>
      exists i :: 0 <= i < |visits| && visits[i].head == HeadOk(w.memory.validators) && visits[i].current == text
  }

  lemma NextHashVouched(lib: Libraries, kind: SourceKind, w: TextWorld, v: TextVisit)
    requires !kind.Bundle? && TextDigestsDistinguish(lib) && HashVouched(lib, w)
    ensures HashVouched(lib, NextText(lib, kind, w, v))
  {}

  lemma PollAdoptsShown(lib: Libraries, kind: SourceKind, m: Memory, s: Store, head: HeadReply, get: GetReply, now: nat)
    requires !kind.Bundle?
    ensures PollText(lib, kind, m, s, head, get, now).0.validators
            == if head.HeadOk? then head.validators else m.validators
  {}

  lemma {:induction false} TextPollerMemory(lib: Libraries, kind: SourceKind, s: Store, visits: seq<TextVisit>)
    requires !kind.Bundle? && TextDigestsDistinguish(lib)
    ensures HashVouched(lib, TextWorldAfter(lib, kind, s, visits))
    ensures ValidatorsVouched(TextWorldAfter(lib, kind, s, visits), visits)
  {
    if visits != [] {
      var n := |visits| - 1;
      var w, v, w' := TextWorldAfter(lib, kind, s, visits[..n]), visits[n], TextWorldAfter(lib, kind, s, visits);
      TextPollerMemory(lib, kind, s, visits[..n]);
      NextHashVouched(lib, kind, w, v);
      PollAdoptsShown(lib, kind, w.memory, Run(lib, w.store, v.others), v.head, v.get, v.now);
      if v.head.HeadOk? {
        assert visits[n].head == HeadOk(w'.memory.validators);
      } else if w.shown.Some? {
        var i :| 0 <= i < n && visits[..n][i].head == HeadOk(w.memory.validators)
                 && visits[..n][i].current == w.shown.value;
        assert visits[i] == visits[..n][i];
      }
    }
  }

  // ----- What a 304 means -------------------------------------------------------------------

  /** A 304 speaks of the text the last successful HEAD showed.  It skips content this poller has applied exactly when
      that text is the one the last successful fetch brought: not when the GET after that HEAD failed, when its text
      was refused, or when it brought another text. */
  lemma NotModifiedIsRightExactly(lib: Libraries, kind: SourceKind, s: Store, visits: seq<TextVisit>, j: nat)
    requires !kind.Bundle? && TextDigestsDistinguish(lib) && StrongTextOrigin(lib, kind, s, visits)
    requires j < |visits| && visits[j].head.HeadNotModified?
    ensures var w := TextWorldAfter(lib, kind, s, visits[..j]);
            && w.shown == Some(visits[j].current)
            && (w.applied == Some(visits[j].current) <==> w.taken == w.shown)
            && (w.applied == Some(visits[j].current) <==> w.memory.archiveSha == HashOf(lib, w.shown))
  {
    var w := TextWorldAfter(lib, kind, s, visits[..j]);
    TextPollerMemory(lib, kind, s, visits[..j]);
    assert w.memory.validators != NO_VALIDATORS;
    var i :| 0 <= i < j && visits[..j][i].head == HeadOk(w.memory.validators)
             && visits[..j][i].current == w.shown.value;
    assert visits[i].head == HeadOk(w.memory.validators);
  }

  lemma {:induction false} NoValidatorsRemembered(lib: Libraries, kind: SourceKind, s: Store, visits: seq<TextVisit>)
    requires !kind.Bundle?
    requires forall v | v in visits :: v.head.HeadOk? ==> v.head.validators == NO_VALIDATORS
    ensures TextWorldAfter(lib, kind, s, visits).memory.validators == NO_VALIDATORS
  {
    if visits != [] {
      var n := |visits| - 1;
      var w, v := TextWorldAfter(lib, kind, s, visits[..n]), visits[n];
      NoValidatorsRemembered(lib, kind, s, visits[..n]);
      assert v in visits;
      PollAdoptsShown(lib, kind, w.memory, Run(lib, w.store, v.others), v.head, v.get, v.now);
    }
  }

  /** An origin that sends no validators never answers 304, so every successful poll has fetched a text and leaves it
      the one applied last. */
  lemma {:induction false} WithoutValidatorsNothingSkipped(lib: Libraries, kind: SourceKind, s: Store,
                                                           visits: seq<TextVisit>, j: nat)
    requires !kind.Bundle? && TextDigestsDistinguish(lib) && StrongTextOrigin(lib, kind, s, visits) && j < |visits|
    requires forall v | v in visits :: v.head.HeadOk? ==> v.head.validators == NO_VALIDATORS
    ensures var w := TextWorldAfter(lib, kind, s, visits[..j]);
            PollText(lib, kind, w.memory, Run(lib, w.store, visits[j].others), visits[j].head, visits[j].get,
                     visits[j].now).2.Pass? ==>
              && visits[j].get.GetText?
              && TextWorldAfter(lib, kind, s, visits[..j + 1]).applied == Some(visits[j].get.text)
  {
    var w := TextWorldAfter(lib, kind, s, visits[..j]);
    NoValidatorsRemembered(lib, kind, s, visits[..j]);
    assert !visits[j].head.HeadNotModified?;
    if PollText(lib, kind, w.memory, Run(lib, w.store, visits[j].others), visits[j].head, visits[j].get,
                visits[j].now).2.Pass? {
      PassedWithoutNotModified(lib, kind, s, visits, j);
    }
  }

  lemma PassedWithoutNotModified(lib: Libraries, kind: SourceKind, s: Store, visits: seq<TextVisit>, j: nat)
    requires !kind.Bundle? && TextDigestsDistinguish(lib) && j < |visits| && !visits[j].head.HeadNotModified?
    requires var w := TextWorldAfter(lib, kind, s, visits[..j]);
             PollText(lib, kind, w.memory, Run(lib, w.store, visits[j].others), visits[j].head, visits[j].get,
                      visits[j].now).2.Pass?
    ensures visits[j].get.GetText?
    ensures TextWorldAfter(lib, kind, s, visits[..j + 1]).applied == Some(visits[j].get.text)
  {
    OneMoreVisit(lib, kind, s, visits, j);
    TextPollerMemory(lib, kind, s, visits[..j + 1]);
  }

  // ----- What the store holds ---------------------------------------------------------------

  /** The event neither replaces the text of this kind nor configures its source nor poisons a cache mutex. */
  predicate Undisturbing(e: Event, kind: SourceKind) {
    match e
    case UpdateDsl(_, _, _, _) => !kind.Policies?
    case UpdateSchema(_, _, _, _) => !kind.Schema?
    case UpdateLabels(_, _, _, _) => !kind.Labels?
    case InstallBundle(_, _, _, _, _, _) => false
    case Configure(k, _, _) => k != kind
    case Poison(_) => false
    case _ => true
  }

  predicate HoldsLoaded(s: Store, kind: SourceKind, text: Text)
    requires !kind.Bundle?
  {
    RecordOf(s.active, kind).content == text && s.remote.Of(kind).loaded
  }

  lemma StepKeepsText(lib: Libraries, s: Store, e: Event, kind: SourceKind, text: Text)
    requires !kind.Bundle? && Undisturbing(e, kind)
    ensures Unpoisoned(s) ==> Unpoisoned(Step(lib, s, e).0)
    ensures HoldsLoaded(s, kind, text) ==> HoldsLoaded(Step(lib, s, e).0, kind, text)
  {
    StepContent(lib, s, e);
  }

  lemma {:induction false} RunKeepsText(lib: Libraries, s: Store, events: seq<Event>, kind: SourceKind, text: Text)
    requires !kind.Bundle? && forall e | e in events :: Undisturbing(e, kind)
    ensures Unpoisoned(s) ==> Unpoisoned(Run(lib, s, events))
    ensures HoldsLoaded(s, kind, text) ==> HoldsLoaded(Run(lib, s, events), kind, text)
  {
    if events != [] {
      var n := |events| - 1;
      RunKeepsText(lib, s, events[..n], kind, text);
      StepKeepsText(lib, Run(lib, s, events[..n]), events[n], kind, text);
    }
  }

  ghost predicate LeftAlone(visits: seq<TextVisit>, kind: SourceKind) {
    forall v, e | v in visits && e in v.others :: Undisturbing(e, kind)
  }

  /** While nobody else replaces its kind of text, the store holds what the poller applied last, marked as loaded. */
  lemma {:induction false} StoreHoldsApplied(lib: Libraries, kind: SourceKind, s: Store, visits: seq<TextVisit>)
    requires !kind.Bundle? && Unpoisoned(s) && LeftAlone(visits, kind)
    ensures var w := TextWorldAfter(lib, kind, s, visits);
            Unpoisoned(w.store) && (w.applied.Some? ==> HoldsLoaded(w.store, kind, w.applied.value))
  {
    if visits != [] {
      var n := |visits| - 1;
      var w, v := TextWorldAfter(lib, kind, s, visits[..n]), visits[n];
      StoreHoldsApplied(lib, kind, s, visits[..n]);
      assert v in visits;
      RunKeepsText(lib, w.store, v.others, kind, w.applied.Or(Some("")).value);
      PollInstallsExactly(lib, kind, w.memory, Run(lib, w.store, v.others), v.head, v.get, v.now);
    }
  }

  /** So a 304 that is right by the condition above meets a store that holds the origin's text. */
  lemma NotModifiedWhileInstalled(lib: Libraries, kind: SourceKind, s: Store, visits: seq<TextVisit>, j: nat)
    requires !kind.Bundle? && TextDigestsDistinguish(lib) && StrongTextOrigin(lib, kind, s, visits)
    requires j < |visits| && visits[j].head.HeadNotModified?
    requires Unpoisoned(s) && LeftAlone(visits[..j], kind)
    requires TextWorldAfter(lib, kind, s, visits[..j]).taken == TextWorldAfter(lib, kind, s, visits[..j]).shown
    ensures HoldsLoaded(TextWorldAfter(lib, kind, s, visits[..j]).store, kind, visits[j].current)
  {
    NotModifiedIsRightExactly(lib, kind, s, visits, j);
    StoreHoldsApplied(lib, kind, s, visits[..j]);
  }

  /** And without validators every successful poll leaves the store holding the text it fetched. */
  lemma WithoutValidatorsInstalled(lib: Libraries, kind: SourceKind, s: Store, visits: seq<TextVisit>, j: nat)
    requires !kind.Bundle? && TextDigestsDistinguish(lib) && StrongTextOrigin(lib, kind, s, visits) && j < |visits|
    requires forall v | v in visits :: v.head.HeadOk? ==> v.head.validators == NO_VALIDATORS
    requires Unpoisoned(s) && LeftAlone(visits[..j + 1], kind)
    ensures var w := TextWorldAfter(lib, kind, s, visits[..j]);
            PollText(lib, kind, w.memory, Run(lib, w.store, visits[j].others), visits[j].head, visits[j].get,
                     visits[j].now).2.Pass? ==>
              && visits[j].get.GetText?
              && HoldsLoaded(TextWorldAfter(lib, kind, s, visits[..j + 1]).store, kind, visits[j].get.text)
  {
    var w := TextWorldAfter(lib, kind, s, visits[..j]);
    if PollText(lib, kind, w.memory, Run(lib, w.store, visits[j].others), visits[j].head, visits[j].get,
                visits[j].now).2.Pass? {
      WithoutValidatorsNothingSkipped(lib, kind, s, visits, j);
      StoreHoldsApplied(lib, kind, s, visits[..j + 1]);
    }
  }

  // ----- Runs in which a 304 is wrong -------------------------------------------------------

  const V1 := Validators(Some("v1"), None)

  /** A policy text is refused while strict mode lacks a schema; the schema arrives, the text would now be accepted,
      but the origin answers 304 and the poll succeeds without it. */
  lemma RefusedTextIsSkippedLater()
    ensures
      var s := EMPTY_STORE.(mode := Strict);
      var (m1, s1, first) := PollText(ECHO, Policies, FRESH, s, HeadOk(V1), GetText("p"), 1);
      var s2 := Step(ECHO, s1, UpdateSchema("schema", None, None, 2)).0;
      var (m3, s3, second) := PollText(ECHO, Policies, m1, s2, HeadNotModified, GetUnreachable, 3);
      && first.Fail? && m1 == Memory(V1, None) && s1 == s
      && DslVerdict(ECHO, s2.mode, s2.active, "p").Pass?
      && second.Pass? && s3 == s2 && s3.active.policies.content == ""
  {}

  /** The GET after a successful HEAD fails; the next HEAD is answered 304, and the poll of a configured source
      succeeds although nothing was ever fetched and the store is not ready. */
  lemma UnfetchedTextIsSkippedLater()
    ensures
      var s := ConfigureSource(EMPTY_STORE, Policies, "u", 60);
      var (m1, s1, first) := PollText(ECHO, Policies, FRESH, s, HeadOk(V1), GetUnreachable, 1);
      var (m2, s2, second) := PollText(ECHO, Policies, m1, s1, HeadNotModified, GetUnreachable, 2);
      && first.Fail? && second.Pass? && m2 == Memory(V1, None)
      && s2 == s && s2.active.policies.content == "" && !SourcesLoaded(s2)
  {}

  /** The origin changes between HEAD and GET and then changes back: the 304 is about the first text, the store
      holds the second, and every poll has succeeded. */
  lemma ReplacedTextIsSkippedLater()
    ensures
      var (m1, s1, first) := PollText(ECHO, Policies, FRESH, EMPTY_STORE, HeadOk(V1), GetText("b"), 1);
      var (m2, s2, second) := PollText(ECHO, Policies, m1, s1, HeadNotModified, GetUnreachable, 2);
      && first.Pass? && second.Pass? && m2 == Memory(V1, Some(ECHO.digest("b")))
      && s2 == s1 && s2.active.policies.content == "b"
  {}

  /** A strong origin allows those runs: text shown with validators once, whatever the GET brought and whatever others
      did to the store, and a 304 while the origin holds that text. */
  lemma WrongNotModifiedAllowed(lib: Libraries, kind: SourceKind, s: Store, first: TextVisit, second: TextVisit)
    requires !kind.Bundle? && first.head == HeadOk(V1) && second.head == HeadNotModified
    requires first.current == second.current
    ensures StrongTextOrigin(lib, kind, s, [first, second])
  {}
}
