/** The sink as an object: one evaluation by itself counts exactly itself. */
module MetricsSinks {
  import opened ActionMetrics

  /** Counting the total and then the outcome counts each kind that applies once. */
  lemma CountedTwice(k: Kind, n: string, name: string, allowed: bool)
    ensures (if (k, n) == (Total, name) then 1 else 0) + (if (k, n) == (Outcome(allowed), name) then 1 else 0)
            == if n == name && CountsAs(k, allowed) then 1 else 0
  {}

  class PrometheusMetricsSink {
    const nameOf: string -> string
    var cache: map<string, nat>
    var handles: seq<Handle>
    var families: map<(Kind, string), nat>
    var cells: seq<nat>

    ghost function State(): Sink
      reads this
    {
      Sink(cache, handles, families, cells)
    }

    constructor (nameOf: string -> string)
      ensures this.nameOf == nameOf && State() == EMPTY_SINK && SinkSound(nameOf, State())
    {
      this.nameOf := nameOf;
      cache, handles, families, cells := map[], [], map[], [];
    }

    /** `action_metrics`: the cached handle, built on the first call for the action; no counter moves. */
    method HandleFor(action: string) returns (handle: nat)
      requires SinkSound(nameOf, State())
      modifies this
      ensures SinkSound(nameOf, State()) && Extends(old(State()), State())
      ensures action in cache && handle == cache[action] < |handles| && handles[handle].name == nameOf(action)
      ensures action in old(cache) ==> State() == old(State())
      ensures forall k, n :: Value(State(), k, n) == Value(old(State()), k, n)
    {
      if action in cache {
        return cache[action];
      }
      var built := |handles|;
      BuildSound(nameOf, State(), nameOf(action));
      handles := handles + [Handle(nameOf(action), map[])];
      InsertSound(nameOf, State(), action, built);
      cache := cache[action := built];
      handle := cache[action];
    }

    /** `get_or_init` of a lazy counter with `get_or_create_owned`. */
    method OpenCounter(handle: nat, kind: Kind)
      requires handle < |handles|
      modifies this
      ensures State() == Open(old(State()), handle, kind)
    {
      if kind !in handles[handle].counters {
        var key := (kind, handles[handle].name);
        if key !in families {
          families, cells := families[key := |cells|], cells + [0];
        }
        handles := handles[handle := handles[handle].(counters := handles[handle].counters[kind := families[key]])];
      }
    }

    method Increment(cell: nat)
      requires cell < |cells|
      modifies this`cells
      ensures State() == Inc(old(State()), cell)
    {
      cells := cells[cell := cells[cell] + 1];
    }

    /** Opens the lazy counter if needed and increments it. */
    method Count(handle: nat, kind: Kind)
      requires SinkSound(nameOf, State()) && handle < |handles|
      modifies this
      ensures SinkSound(nameOf, State()) && Extends(old(State()), State()) && cache == old(cache)
      ensures forall k, n :: Value(State(), k, n)
                             == Value(old(State()), k, n) + if (k, n) == (kind, old(handles[handle].name)) then 1 else 0
    {
      OpenSound(nameOf, State(), handle, kind);
      OpenCounter(handle, kind);
      IncSound(nameOf, State(), handle, kind);
      Increment(handles[handle].counters[kind]);
    }

    /** `on_evaluation`: one more in total and one more for the outcome, under the action's label and no other. */
    method OnEvaluation(action: string, allowed: bool)
      requires SinkSound(nameOf, State())
      modifies this
      ensures SinkSound(nameOf, State()) && Extends(old(State()), State())
      ensures forall k, n :: Value(State(), k, n)
                             == Value(old(State()), k, n)
                                + if n == nameOf(action) && CountsAs(k, allowed) then 1 else 0
    {
      var handle := HandleFor(action);
      Count(handle, Total);
      Count(handle, Outcome(allowed));
      forall k, n
        ensures Value(State(), k, n)
                == Value(old(State()), k, n) + if n == nameOf(action) && CountsAs(k, allowed) then 1 else 0
      {
        CountedTwice(k, n, nameOf(action), allowed);
      }
    }
  }
}
