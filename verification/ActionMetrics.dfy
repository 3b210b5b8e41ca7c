/** The per-action metric handles: a double-checked cache, lazily opened counters, and any interleaving of
    evaluations. */
module ActionMetrics {

  datatype Kind = Total | Allowed | Denied

  function Outcome(allowed: bool): Kind {
    if allowed then Allowed else Denied
  }

  /** `ActionMetrics`: the label and the counters opened so far, as indices into the cells. */
  datatype Handle = Handle(name: string, counters: map<Kind, nat>)

  /** The cache of handles by action id, all handles ever built, the counter families, and the counter cells. */
  datatype Sink = Sink(cache: map<string, nat>, handles: seq<Handle>, families: map<(Kind, string), nat>,
                       cells: seq<nat>)

  const EMPTY_SINK := Sink(map[], [], map[], [])

  /** What an exporter reads for a label. */
  function Value(s: Sink, k: Kind, name: string): nat {
    if (k, name) in s.families && s.families[(k, name)] < |s.cells| then s.cells[s.families[(k, name)]] else 0
  }

  /** Cached handles carry the label of their action; opened counters are those of the family; families share no
      cell. */
  ghost predicate SinkSound(nameOf: string -> string, s: Sink) {
    && (forall a | a in s.cache :: s.cache[a] < |s.handles| && s.handles[s.cache[a]].name == nameOf(a))
    && (forall h, k | 0 <= h < |s.handles| && k in s.handles[h].counters ::
          (k, s.handles[h].name) in s.families && s.handles[h].counters[k] == s.families[(k, s.handles[h].name)])
    && (forall f | f in s.families :: s.families[f] < |s.cells|)
    && (forall f, g | f in s.families && g in s.families && s.families[f] == s.families[g] :: f == g)
  }

  // ----- Atomic steps on the shared state -----------------------------------------------------

  /** Allocates a handle that is not yet shared. */
  function Build(s: Sink, name: string): Sink {
    s.(handles := s.handles + [Handle(name, map[])])
  }

  /** `entry(..).or_insert(..)` under the write lock. */
  function Insert(s: Sink, action: string, h: nat): Sink {
    if action in s.cache then s else s.(cache := s.cache[action := h])
  }

  /** `Family::get_or_create_owned`. */
  function Create(s: Sink, key: (Kind, string)): Sink {
    if key in s.families then s else s.(families := s.families[key := |s.cells|], cells := s.cells + [0])
  }

  /** Stores the family's counter in the handle. */
  function Lend(s: Sink, h: nat, k: Kind): Sink
    requires h < |s.handles| && (k, s.handles[h].name) in s.families
  {
    var handle := s.handles[h];
    s.(handles := s.handles[h := handle.(counters := handle.counters[k := s.families[(k, handle.name)]])])
  }

  /** `OnceLock` keeps the first counter it was given. */
  function Settle(s: Sink, h: nat, k: Kind): Sink
    requires h < |s.handles| && (k, s.handles[h].name) in s.families
  {
    if k in s.handles[h].counters then s else Lend(s, h, k)
  }

  /** `get_or_init` with `get_or_create_owned`, when nobody comes between the two. */
  function Open(s: Sink, h: nat, k: Kind): Sink
    requires h < |s.handles|
  {
    if k in s.handles[h].counters then s else Settle(Create(s, (k, s.handles[h].name)), h, k)
  }

  function Inc(s: Sink, cell: nat): Sink
    requires cell < |s.cells|
  {
    s.(cells := s.cells[cell := s.cells[cell] + 1])
  }

  /** Nothing published is taken back: cached handles, labels, families and opened counters stay. */
  ghost predicate Extends(s: Sink, s': Sink) {
    && (forall a | a in s.cache :: a in s'.cache && s'.cache[a] == s.cache[a])
    && s.families.Keys <= s'.families.Keys
    && |s.handles| <= |s'.handles|
    && (forall h | 0 <= h < |s.handles| ::
          && s'.handles[h].name == s.handles[h].name
          && s.handles[h].counters.Keys <= s'.handles[h].counters.Keys)
  }

  lemma BuildSound(nameOf: string -> string, s: Sink, name: string)
    requires SinkSound(nameOf, s)
    ensures SinkSound(nameOf, Build(s, name)) && Extends(s, Build(s, name))
    ensures forall k, n :: Value(Build(s, name), k, n) == Value(s, k, n)
  {}

  lemma InsertSound(nameOf: string -> string, s: Sink, action: string, h: nat)
    requires SinkSound(nameOf, s) && h < |s.handles| && s.handles[h].name == nameOf(action)
    ensures SinkSound(nameOf, Insert(s, action, h)) && Extends(s, Insert(s, action, h))
    ensures forall k, n :: Value(Insert(s, action, h), k, n) == Value(s, k, n)
  {}

  lemma CreateSound(nameOf: string -> string, s: Sink, key: (Kind, string))
    requires SinkSound(nameOf, s)
    ensures SinkSound(nameOf, Create(s, key)) && Extends(s, Create(s, key))
    ensures key in Create(s, key).families && Create(s, key).handles == s.handles && Create(s, key).cache == s.cache
    ensures forall k, n :: Value(Create(s, key), k, n) == Value(s, k, n)
  {}

  lemma LendSound(nameOf: string -> string, s: Sink, h: nat, k: Kind)
    requires SinkSound(nameOf, s) && h < |s.handles| && (k, s.handles[h].name) in s.families
    ensures SinkSound(nameOf, Lend(s, h, k)) && Extends(s, Lend(s, h, k))
    ensures k in Lend(s, h, k).handles[h].counters
  {}

  lemma SettleSound(nameOf: string -> string, s: Sink, h: nat, k: Kind)
    requires SinkSound(nameOf, s) && h < |s.handles| && (k, s.handles[h].name) in s.families
    ensures SinkSound(nameOf, Settle(s, h, k)) && Extends(s, Settle(s, h, k))
    ensures k in Settle(s, h, k).handles[h].counters
    ensures forall j, n :: Value(Settle(s, h, k), j, n) == Value(s, j, n)
  {}

  lemma ExtendsTransitive(s: Sink, s': Sink, s'': Sink)
    requires Extends(s, s') && Extends(s', s'')
    ensures Extends(s, s'')
  {}

  lemma OpenSound(nameOf: string -> string, s: Sink, h: nat, k: Kind)
    requires SinkSound(nameOf, s) && h < |s.handles|
    ensures SinkSound(nameOf, Open(s, h, k)) && Extends(s, Open(s, h, k))
    ensures k in Open(s, h, k).handles[h].counters
    ensures forall j, n :: Value(Open(s, h, k), j, n) == Value(s, j, n)
  {
    if k !in s.handles[h].counters {
      var created := Create(s, (k, s.handles[h].name));
      CreateSound(nameOf, s, (k, s.handles[h].name));
      SettleSound(nameOf, created, h, k);
      ExtendsTransitive(s, created, Open(s, h, k));
    }
  }

  /** Counting through a handle adds one to the counter of its label and to no other. */
  lemma IncSound(nameOf: string -> string, s: Sink, h: nat, k: Kind)
    requires SinkSound(nameOf, s) && h < |s.handles| && k in s.handles[h].counters
    ensures var cell := s.handles[h].counters[k];
            cell < |s.cells| && SinkSound(nameOf, Inc(s, cell)) && Extends(s, Inc(s, cell))
    ensures forall j, n ::
              Value(Inc(s, s.handles[h].counters[k]), j, n)
              == Value(s, j, n) + if (j, n) == (k, s.handles[h].name) then 1 else 0
  {}

  // ----- Interleaved evaluations --------------------------------------------------------------

  /** Where a call of `on_evaluation` stands between two atomic steps. */
  datatype Phase =
    | Begun
    | Missed
    | Built(handle: nat)
    | Holding(handle: nat)
    | TotalCreated(handle: nat)
    | TotalOpen(handle: nat)
    | Counted(handle: nat)
    | OutcomeCreated(handle: nat)
    | OutcomeOpen(handle: nat)
    | Done(handle: nat)

  datatype Thread = Thread(action: string, allowed: bool, phase: Phase)

  predicate Holds(t: Thread) {
    !t.phase.Begun? && !t.phase.Missed? && !t.phase.Built?
  }

  ghost predicate ThreadSound(nameOf: string -> string, s: Sink, t: Thread) {
    && (t.phase.Built? ==> t.phase.handle < |s.handles| && s.handles[t.phase.handle].name == nameOf(t.action))
    && (Holds(t) ==> t.action in s.cache && t.phase.handle == s.cache[t.action] && t.phase.handle < |s.handles|)
    && (t.phase.TotalCreated? ==> (Total, s.handles[t.phase.handle].name) in s.families)
    && (t.phase.OutcomeCreated? ==> (Outcome(t.allowed), s.handles[t.phase.handle].name) in s.families)
    && (t.phase.TotalOpen? ==> Total in s.handles[t.phase.handle].counters)
    && (t.phase.OutcomeOpen? ==> Outcome(t.allowed) in s.handles[t.phase.handle].counters)
  }

  /** One atomic step of one evaluation.  Creating a counter in its family and storing it in the handle are two steps;
      evaluations that find the counter opened go through both without effect. */
  function Advance(nameOf: string -> string, s: Sink, t: Thread): (Sink, Thread)
    requires SinkSound(nameOf, s) && ThreadSound(nameOf, s, t)
  {
    match t.phase
    case Begun => (s, t.(phase := if t.action in s.cache then Holding(s.cache[t.action]) else Missed))
    case Missed => (Build(s, nameOf(t.action)), t.(phase := Built(|s.handles|)))
    case Built(h) => var s' := Insert(s, t.action, h); (s', t.(phase := Holding(s'.cache[t.action])))
    case Holding(h) => (Create(s, (Total, s.handles[h].name)), t.(phase := TotalCreated(h)))
    case TotalCreated(h) => (Settle(s, h, Total), t.(phase := TotalOpen(h)))
    case TotalOpen(h) => (Inc(s, s.handles[h].counters[Total]), t.(phase := Counted(h)))
    case Counted(h) => (Create(s, (Outcome(t.allowed), s.handles[h].name)), t.(phase := OutcomeCreated(h)))
    case OutcomeCreated(h) => (Settle(s, h, Outcome(t.allowed)), t.(phase := OutcomeOpen(h)))
    case OutcomeOpen(h) => (Inc(s, s.handles[h].counters[Outcome(t.allowed)]), t.(phase := Done(h)))
    case Done(_) => (s, t)
  }

  /** Whether the evaluation has incremented its counter of this kind. */
  predicate Passed(t: Thread, k: Kind) {
    match k
    case Total => t.phase.Counted? || t.phase.OutcomeCreated? || t.phase.OutcomeOpen? || t.phase.Done?
    case _ => t.phase.Done? && k == Outcome(t.allowed)
  }

  function One(nameOf: string -> string, t: Thread, k: Kind, name: string): nat {
    if nameOf(t.action) == name && Passed(t, k) then 1 else 0
  }

  function Tally(nameOf: string -> string, threads: seq<Thread>, k: Kind, name: string): nat {
    if threads == [] then 0
    else Tally(nameOf, threads[..|threads| - 1], k, name) + One(nameOf, threads[|threads| - 1], k, name)
  }

  lemma {:induction false} TallyUpdate(nameOf: string -> string, threads: seq<Thread>, i: nat, t: Thread, k: Kind,
                                       name: string)
    requires i < |threads|
    ensures Tally(nameOf, threads[i := t], k, name)
            == Tally(nameOf, threads, k, name) - One(nameOf, threads[i], k, name) + One(nameOf, t, k, name)
  {
    var n := |threads| - 1;
    if i < n {
      TallyUpdate(nameOf, threads[..n], i, t, k, name);
      assert threads[i := t][..n] == threads[..n][i := t];
    } else {
      assert threads[i := t][..n] == threads[..n];
    }
  }

  lemma ThreadStays(nameOf: string -> string, s: Sink, s': Sink, t: Thread)
    requires ThreadSound(nameOf, s, t) && Extends(s, s')
    ensures ThreadSound(nameOf, s', t)
  {}

  /** What one step keeps: a sound state, the evaluation's own data, and counters that move exactly as the evaluation
      does. */
  ghost predicate StepSound(nameOf: string -> string, s: Sink, t: Thread, s': Sink, t': Thread) {
    && SinkSound(nameOf, s') && ThreadSound(nameOf, s', t') && Extends(s, s')
    && t'.action == t.action && t'.allowed == t.allowed
    && forall k, n :: Value(s', k, n) + One(nameOf, t, k, n) == Value(s, k, n) + One(nameOf, t', k, n)
  }

  /** The counter an evaluation opens or increments next, from the moment it holds its handle. */
  function NextKind(t: Thread): Kind {
    if t.phase.Holding? || t.phase.TotalCreated? || t.phase.TotalOpen? then Total else Outcome(t.allowed)
  }

  /** An evaluation passes a kind exactly by the step that increments it. */
  lemma StepPasses(nameOf: string -> string, s: Sink, t: Thread, k: Kind, name: string)
    requires SinkSound(nameOf, s) && ThreadSound(nameOf, s, t)
    ensures var t' := Advance(nameOf, s, t).1;
            One(nameOf, t', k, name) == One(nameOf, t, k, name)
              + if (t.phase.TotalOpen? || t.phase.OutcomeOpen?) && (k, name) == (NextKind(t), nameOf(t.action))
                then 1 else 0
  {}

  lemma SearchSound(nameOf: string -> string, s: Sink, t: Thread)
    requires SinkSound(nameOf, s) && ThreadSound(nameOf, s, t) && (t.phase.Begun? || t.phase.Missed? || t.phase.Built?)
    ensures var (s', t') := Advance(nameOf, s, t); StepSound(nameOf, s, t, s', t')
  {
    var (s', t') := Advance(nameOf, s, t);
    if t.phase.Missed? {
      BuildSound(nameOf, s, nameOf(t.action));
    } else if t.phase.Built? {
      InsertSound(nameOf, s, t.action, t.phase.handle);
    }
    forall k, n ensures Value(s', k, n) + One(nameOf, t, k, n) == Value(s, k, n) + One(nameOf, t', k, n) {
      StepPasses(nameOf, s, t, k, n);
    }
  }

  lemma CreatingSound(nameOf: string -> string, s: Sink, t: Thread)
    requires SinkSound(nameOf, s) && ThreadSound(nameOf, s, t) && (t.phase.Holding? || t.phase.Counted?)
    ensures var (s', t') := Advance(nameOf, s, t); StepSound(nameOf, s, t, s', t')
  {
    CreateSound(nameOf, s, (NextKind(t), s.handles[t.phase.handle].name));
    var (s', t') := Advance(nameOf, s, t);
    forall k, n ensures Value(s', k, n) + One(nameOf, t, k, n) == Value(s, k, n) + One(nameOf, t', k, n) {
      StepPasses(nameOf, s, t, k, n);
    }
  }

  lemma SettlingSound(nameOf: string -> string, s: Sink, t: Thread)
    requires SinkSound(nameOf, s) && ThreadSound(nameOf, s, t) && (t.phase.TotalCreated? || t.phase.OutcomeCreated?)
    ensures var (s', t') := Advance(nameOf, s, t); StepSound(nameOf, s, t, s', t')
  {
    SettleSound(nameOf, s, t.phase.handle, NextKind(t));
    var (s', t') := Advance(nameOf, s, t);
    forall k, n ensures Value(s', k, n) + One(nameOf, t, k, n) == Value(s, k, n) + One(nameOf, t', k, n) {
      StepPasses(nameOf, s, t, k, n);
    }
  }

  lemma CountingSound(nameOf: string -> string, s: Sink, t: Thread)
    requires SinkSound(nameOf, s) && ThreadSound(nameOf, s, t) && (t.phase.TotalOpen? || t.phase.OutcomeOpen?)
    ensures var (s', t') := Advance(nameOf, s, t); StepSound(nameOf, s, t, s', t')
  {
    IncSound(nameOf, s, t.phase.handle, NextKind(t));
    var (s', t') := Advance(nameOf, s, t);
    forall k, n ensures Value(s', k, n) + One(nameOf, t, k, n) == Value(s, k, n) + One(nameOf, t', k, n) {
      StepPasses(nameOf, s, t, k, n);
    }
  }

  lemma AdvanceSound(nameOf: string -> string, s: Sink, t: Thread)
    requires SinkSound(nameOf, s) && ThreadSound(nameOf, s, t)
    ensures var (s', t') := Advance(nameOf, s, t); StepSound(nameOf, s, t, s', t')
  {
    if t.phase.Begun? || t.phase.Missed? || t.phase.Built? {
      SearchSound(nameOf, s, t);
    } else if t.phase.Holding? || t.phase.Counted? {
      CreatingSound(nameOf, s, t);
    } else if t.phase.TotalCreated? || t.phase.OutcomeCreated? {
      SettlingSound(nameOf, s, t);
    } else if t.phase.TotalOpen? || t.phase.OutcomeOpen? {
      CountingSound(nameOf, s, t);
    }
  }

  datatype System = System(sink: Sink, threads: seq<Thread>)

  /** A new evaluation arrives, or the scheduler lets one of them take a step. */
  datatype Event = Evaluate(action: string, allowed: bool) | Step(thread: nat)

  /** Every evaluation is where the shared state says, and every counter is the tally of the evaluations past it. */
  ghost predicate SystemSound(nameOf: string -> string, y: System) {
    && SinkSound(nameOf, y.sink)
    && (forall i | 0 <= i < |y.threads| :: ThreadSound(nameOf, y.sink, y.threads[i]))
    && (forall k, n :: Value(y.sink, k, n) == Tally(nameOf, y.threads, k, n))
  }

  ghost function Act(nameOf: string -> string, y: System, e: Event): System
    requires SystemSound(nameOf, y)
  {
    match e
    case Evaluate(action, allowed) => y.(threads := y.threads + [Thread(action, allowed, Begun)])
    case Step(i) =>
      if i < |y.threads| then
        var (s, t) := Advance(nameOf, y.sink, y.threads[i]);
        System(s, y.threads[i := t])
      else y
  }

  lemma ArrivalSound(nameOf: string -> string, y: System, t: Thread)
    requires SystemSound(nameOf, y) && t.phase.Begun?
    ensures SystemSound(nameOf, y.(threads := y.threads + [t]))
  {}

  lemma {:induction false} StepEventSound(nameOf: string -> string, y: System, i: nat)
    requires SystemSound(nameOf, y) && i < |y.threads|
    ensures var (s, t) := Advance(nameOf, y.sink, y.threads[i]); SystemSound(nameOf, System(s, y.threads[i := t]))
  {
    var (s, t) := Advance(nameOf, y.sink, y.threads[i]);
    var threads := y.threads[i := t];
    AdvanceSound(nameOf, y.sink, y.threads[i]);
    forall j | 0 <= j < |threads| ensures ThreadSound(nameOf, s, threads[j]) {
      if j != i { ThreadStays(nameOf, y.sink, s, y.threads[j]); }
    }
    forall k, n ensures Value(s, k, n) == Tally(nameOf, threads, k, n) {
      TallyUpdate(nameOf, y.threads, i, t, k, n);
    }
  }

  lemma ActSound(nameOf: string -> string, y: System, e: Event)
    requires SystemSound(nameOf, y)
    ensures SystemSound(nameOf, Act(nameOf, y, e))
  {
    match e
    case Evaluate(action, allowed) => ArrivalSound(nameOf, y, Thread(action, allowed, Begun));
    case Step(i) => if i < |y.threads| { StepEventSound(nameOf, y, i); }
  }

  /** Any run from the empty sink: every reachable state is sound. */
  ghost function Run(nameOf: string -> string, events: seq<Event>): (y: System)
    ensures SystemSound(nameOf, y)
  {
    if events == [] then System(EMPTY_SINK, [])
    else
      var before := Run(nameOf, events[..|events| - 1]);
      ActSound(nameOf, before, events[|events| - 1]);
      Act(nameOf, before, events[|events| - 1])
  }

  /** All evaluations of one action id that obtained a handle hold the same one, the cached one, and it carries the
      action's label. */
  lemma {:induction false} HandlesShared(nameOf: string -> string, events: seq<Event>, i: nat, j: nat)
    ensures var y := Run(nameOf, events);
            i < |y.threads| && j < |y.threads| && Holds(y.threads[i]) && Holds(y.threads[j]) ==>
            y.threads[i].action == y.threads[j].action ==>
              && y.threads[i].phase.handle == y.threads[j].phase.handle < |y.sink.handles|
              && y.sink.handles[y.threads[i].phase.handle].name == nameOf(y.threads[i].action)
  {}

  /** Evaluations of a label between their two increments. */
  function InFlight(nameOf: string -> string, threads: seq<Thread>, name: string): nat {
    if threads == [] then 0
    else
      var t := threads[|threads| - 1];
      InFlight(nameOf, threads[..|threads| - 1], name)
      + if nameOf(t.action) == name && (t.phase.Counted? || t.phase.OutcomeCreated? || t.phase.OutcomeOpen?)
        then 1 else 0
  }

  lemma {:induction false} TalliesBalance(nameOf: string -> string, threads: seq<Thread>, name: string)
    ensures Tally(nameOf, threads, Total, name)
            == Tally(nameOf, threads, Allowed, name) + Tally(nameOf, threads, Denied, name)
               + InFlight(nameOf, threads, name)
  {
    if threads != [] {
      TalliesBalance(nameOf, threads[..|threads| - 1], name);
    }
  }

  /** At every moment, the total minus both outcomes is the number of evaluations in flight. */
  lemma {:induction false} TotalMinusOutcomesInFlight(nameOf: string -> string, events: seq<Event>, name: string)
    ensures var y := Run(nameOf, events);
            Value(y.sink, Total, name)
            == Value(y.sink, Allowed, name) + Value(y.sink, Denied, name) + InFlight(nameOf, y.threads, name)
  {
    TalliesBalance(nameOf, Run(nameOf, events).threads, name);
  }

  /** Whether an evaluation with this result is to be counted under a kind. */
  predicate CountsAs(k: Kind, allowed: bool) {
    match k
    case Total => true
    case Allowed => allowed
    case Denied => !allowed
  }

  /** Plain counting over the evaluations, with no cache, no handle and no scheduler. */
  function PlainCount(nameOf: string -> string, events: seq<Event>, k: Kind, name: string): nat {
    if events == [] then 0
    else
      var e := events[|events| - 1];
      PlainCount(nameOf, events[..|events| - 1], k, name)
      + if e.Evaluate? && nameOf(e.action) == name && CountsAs(k, e.allowed) then 1 else 0
  }

  /** Plain counting over evaluations that have arrived, whatever their phase. */
  function Arrived(nameOf: string -> string, threads: seq<Thread>, k: Kind, name: string): nat {
    if threads == [] then 0
    else
      var t := threads[|threads| - 1];
      Arrived(nameOf, threads[..|threads| - 1], k, name)
      + if nameOf(t.action) == name && CountsAs(k, t.allowed) then 1 else 0
  }

  lemma {:induction false} ArrivedUpdate(nameOf: string -> string, threads: seq<Thread>, i: nat, t: Thread, k: Kind,
                                         name: string)
    requires i < |threads| && t.action == threads[i].action && t.allowed == threads[i].allowed
    ensures Arrived(nameOf, threads[i := t], k, name) == Arrived(nameOf, threads, k, name)
  {
    var n := |threads| - 1;
    if i < n {
      ArrivedUpdate(nameOf, threads[..n], i, t, k, name);
      assert threads[i := t][..n] == threads[..n][i := t];
    } else {
      assert threads[i := t][..n] == threads[..n];
    }
  }

  lemma {:induction false} ArrivedIsPlainCount(nameOf: string -> string, events: seq<Event>, k: Kind, name: string)
    ensures Arrived(nameOf, Run(nameOf, events).threads, k, name) == PlainCount(nameOf, events, k, name)
  {
    if events != [] {
      var before := Run(nameOf, events[..|events| - 1]);
      var e := events[|events| - 1];
      var y := Act(nameOf, before, e);
      ArrivedIsPlainCount(nameOf, events[..|events| - 1], k, name);
      if e.Step? && e.thread < |before.threads| {
        AdvanceSound(nameOf, before.sink, before.threads[e.thread]);
        ArrivedUpdate(nameOf, before.threads, e.thread, y.threads[e.thread], k, name);
      } else if e.Evaluate? {
        assert y.threads[..|before.threads|] == before.threads;
      }
    }
  }

  lemma {:induction false} TallyOfDone(nameOf: string -> string, threads: seq<Thread>, k: Kind, name: string)
    requires forall t | t in threads :: t.phase.Done?
    ensures Tally(nameOf, threads, k, name) == Arrived(nameOf, threads, k, name)
  {
    if threads != [] {
      assert threads[|threads| - 1] in threads;
      TallyOfDone(nameOf, threads[..|threads| - 1], k, name);
    }
  }

  /** Once every evaluation has returned, every counter of every label is the plain count, however the steps
      interleaved. */
  lemma {:induction false} QuiescentCountsArePlain(nameOf: string -> string, events: seq<Event>, k: Kind, name: string)
    requires forall t | t in Run(nameOf, events).threads :: t.phase.Done?
    ensures Value(Run(nameOf, events).sink, k, name) == PlainCount(nameOf, events, k, name)
  {
    TallyOfDone(nameOf, Run(nameOf, events).threads, k, name);
    ArrivedIsPlainCount(nameOf, events, k, name);
  }
}
