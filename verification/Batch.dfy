/** Authorization batches: context limits, one evaluation, and the sequential and parallel batch. */
module Batch {
  import opened Basics
  import opened Engines
  import opened StoreSpec

  datatype AuthRequest = AuthRequest(id: Option<string>, context: Option<Context>, request: string)

  datatype Limits = Limits(maxBatchSize: nat, maxContextBytes: nat, maxContextDepth: nat, maxContextKeys: nat)

  datatype BatchResult<+T> = Success(data: T) | Failed(message: string)

  datatype IndexedResult<+T> = IndexedResult(index: nat, id: Option<string>, result: BatchResult<T>)

  /** What `authorize` captures under the read lock. */
  datatype Snapshot = Snapshot(engine: Engine, version: string, strict: bool, schemaLoaded: bool)

  function TakeSnapshot(lib: Libraries, s: Store): Snapshot {
    Snapshot(s.active.engine, lib.version(s.active.engine), s.mode.Strict?, s.active.schema.content != "")
  }

  // ----- Context limits ---------------------------------------------------------------------

  function Depth(v: AttrValue): nat {
    match v
    case Set(elements) => 1 + MaxDepth(elements)
    case Scalar(_) => 1
  }

  function MaxDepth(vs: seq<AttrValue>): nat {
    if vs == [] then 0
    else if Depth(vs[0]) > MaxDepth(vs[1..]) then Depth(vs[0]) else MaxDepth(vs[1..])
  }

  /** Some chain of `n` values, each an element of the set before it, starts at `v`. */
  ghost predicate Nests(v: AttrValue, n: nat) {
    n <= 1 || (v.Set? && exists e :: e in v.elements && Nests(e, n - 1))
  }

  /** `context_value_depth` is the length of the longest chain of nested values. */
  lemma {:induction false} DepthIsNesting(v: AttrValue, n: nat)
    ensures Depth(v) >= n <==> Nests(v, n)
    decreases v, 0
  {
    if n > 1 && v.Set? {
      MaxDepthIsNesting(v.elements, n - 1);
    }
  }

  lemma {:induction false} MaxDepthIsNesting(vs: seq<AttrValue>, n: nat)
    requires n > 0
    ensures MaxDepth(vs) >= n <==> exists e :: e in vs && Nests(e, n)
    decreases vs, 0
  {
    if vs != [] {
      DepthIsNesting(vs[0], n);
      MaxDepthIsNesting(vs[1..], n);
      assert forall e :: e in vs <==> e == vs[0] || e in vs[1..];
    }
  }

  function ContextVerdict(lib: Libraries, context: Option<Context>, limits: Limits, strict: bool,
                          schemaLoaded: bool): Outcome
  {
    match context
    case None => Pass
    case Some(values) =>
      Check(|values| <= limits.maxContextKeys, ContextValidationError("keys"))
      .Then(match lib.contextBytes(values)
            case Err(e) => Fail(e)
            case Ok(bytes) => Check(bytes <= limits.maxContextBytes, ContextValidationError("bytes")))
      .Then(Check(forall k | k in values :: Depth(values[k]) <= limits.maxContextDepth,
                  ContextValidationError("depth")))
      .Then(Check(strict ==> schemaLoaded, ContextValidationError("schema")))
  }

  lemma DepthLimit(values: Context, limit: nat)
    ensures (forall k | k in values :: Depth(values[k]) <= limit)
            <==> (forall k | k in values :: !Nests(values[k], limit + 1))
  {
    forall k | k in values ensures Depth(values[k]) <= limit <==> !Nests(values[k], limit + 1) {
      DepthIsNesting(values[k], limit + 1);
    }
  }

  /** A context passes exactly when it keeps every limit, no chain of values nests too deep,
      and in strict mode a schema is loaded; a request without context always passes. */
  lemma ContextPasses(lib: Libraries, context: Option<Context>, limits: Limits, strict: bool, schemaLoaded: bool)
    ensures ContextVerdict(lib, context, limits, strict, schemaLoaded).Pass? <==>
            context.Some? ==>
              && |context.value| <= limits.maxContextKeys
              && lib.contextBytes(context.value).Ok? && lib.contextBytes(context.value).value <= limits.maxContextBytes
              && (forall k | k in context.value :: !Nests(context.value[k], limits.maxContextDepth + 1))
              && (strict ==> schemaLoaded)
  {
    if context.Some? { DepthLimit(context.value, limits.maxContextDepth); }
  }

  /** The limits are checked in order: too many keys hides everything else, a missing schema is told only of
      a context that keeps every limit. */
  lemma ContextLimitsInOrder(lib: Libraries, values: Context, limits: Limits, strict: bool, schemaLoaded: bool)
    ensures var verdict := ContextVerdict(lib, Some(values), limits, strict, schemaLoaded);
            var bytes := lib.contextBytes(values);
            && (|values| > limits.maxContextKeys ==> verdict == Fail(ContextValidationError("keys")))
            && (|values| <= limits.maxContextKeys && bytes.Err? ==> verdict == Fail(bytes.error))
            && (|values| <= limits.maxContextKeys && bytes.Ok? && bytes.value > limits.maxContextBytes ==>
                  verdict == Fail(ContextValidationError("bytes")))
            && (|values| <= limits.maxContextKeys && bytes.Ok? && bytes.value <= limits.maxContextBytes ==>
                  (verdict == Fail(ContextValidationError("depth")) <==>
                   exists k :: k in values && Nests(values[k], limits.maxContextDepth + 1)))
  {
    DepthLimit(values, limits.maxContextDepth);
  }

  // ----- Evaluation -------------------------------------------------------------------------

  function EvalOne<T>(lib: Libraries, snap: Snapshot, limits: Limits, index: nat, r: AuthRequest,
                      view: Decision -> T): IndexedResult<T>
  {
    var verdict := ContextVerdict(lib, r.context, limits, snap.strict, snap.schemaLoaded);
    var evaluated := lib.evaluate(snap.engine, r.request, r.context);
    IndexedResult(index, r.id,
      if verdict.Fail? then Failed(lib.display(verdict.error))
      else match evaluated
           case Ok(decision) => Success(view(decision))
           case Err(message) => Failed(message))
  }

  /** The results of a batch: one per request, in order. */
  ghost predicate BatchOf<T>(lib: Libraries, snap: Snapshot, limits: Limits, requests: seq<AuthRequest>,
                             view: Decision -> T,
                             results: seq<IndexedResult<T>>)
  {
    && |results| == |requests|
    && forall i | 0 <= i < |requests| :: results[i] == EvalOne(lib, snap, limits, i, requests[i], view)
  }

  function CountSuccesses<T>(results: seq<IndexedResult<T>>): (n: nat)
    ensures n <= |results|
  {
    if results == [] then 0
    else CountSuccesses(results[..|results| - 1]) + (if results[|results| - 1].result.Success? then 1 else 0)
  }

  /** How a fork-join scheduler cut the input: a piece evaluated in order, or two halves joined. */
  datatype Split = Piece | Fork(at: nat, left: Split, right: Split)

  /** `par_iter().enumerate().map().collect()` under one schedule, for requests `lo` to `hi`. */
  function Parallel<T>(lib: Libraries, snap: Snapshot, limits: Limits, requests: seq<AuthRequest>, view: Decision -> T,
                       lo: nat, hi: nat, split: Split): (results: seq<IndexedResult<T>>)
    requires lo <= hi <= |requests|
    ensures |results| == hi - lo
    decreases split
  {
    match split
    case Piece =>
      seq(hi - lo, i requires 0 <= i < hi - lo => EvalOne(lib, snap, limits, lo + i, requests[lo + i], view))
    case Fork(at, left, right) =>
      var cut := if lo <= at <= hi then at else hi;
      Parallel(lib, snap, limits, requests, view, lo, cut, left)
      + Parallel(lib, snap, limits, requests, view, cut, hi, right)
  }

  lemma {:induction false} ParallelAt<T>(lib: Libraries, snap: Snapshot, limits: Limits, requests: seq<AuthRequest>,
                                         view: Decision -> T,
                       lo: nat, hi: nat, split: Split, i: nat)
    requires lo <= i < hi <= |requests|
    ensures Parallel(lib, snap, limits, requests, view, lo, hi, split)[i - lo]
            == EvalOne(lib, snap, limits, i, requests[i], view)
    decreases split
  {
    if split.Fork? {
      var cut := if lo <= split.at <= hi then split.at else hi;
      if i < cut {
        ParallelAt(lib, snap, limits, requests, view, lo, cut, split.left, i);
      } else {
        ParallelAt(lib, snap, limits, requests, view, cut, hi, split.right, i);
      }
    }
  }

  /** Whatever way the batch was split, the parallel output is the sequential output. */
  lemma ParallelRefinesSequential<T>(lib: Libraries, snap: Snapshot, limits: Limits, requests: seq<AuthRequest>,
                                     view: Decision -> T, split: Split, sequential: seq<IndexedResult<T>>)
    requires BatchOf(lib, snap, limits, requests, view, sequential)
    ensures Parallel(lib, snap, limits, requests, view, 0, |requests|, split) == sequential
  {
    var parallel := Parallel(lib, snap, limits, requests, view, 0, |requests|, split);
    forall i | 0 <= i < |requests| ensures parallel[i] == sequential[i] {
      ParallelAt(lib, snap, limits, requests, view, 0, |requests|, split, i);
    }
  }

  /** `evaluate_batch_requests`: the parallel branch counts successes afterwards, the sequential one as it goes. */
  method EvaluateBatch<T>(lib: Libraries, snap: Snapshot, limits: Limits, requests: seq<AuthRequest>,
                          view: Decision -> T,
                          allowParallel: bool, threshold: nat, split: Split)
    returns (results: seq<IndexedResult<T>>, successful: nat, failed: nat)
    ensures BatchOf(lib, snap, limits, requests, view, results)
    ensures successful == CountSuccesses(results)
    ensures successful + failed == |requests|
  {
    if allowParallel && |requests| >= threshold {
      results := Parallel(lib, snap, limits, requests, view, 0, |requests|, split);
      forall i | 0 <= i < |requests| ensures results[i] == EvalOne(lib, snap, limits, i, requests[i], view) {
        ParallelAt(lib, snap, limits, requests, view, 0, |requests|, split, i);
      }
      successful := 0;
      for i := 0 to |results|
        invariant successful == CountSuccesses(results[..i])
      {
        assert results[..i + 1][..i] == results[..i];
        if results[i].result.Success? {
          successful := successful + 1;
        }
      }
      assert results[..|results|] == results;
    } else {
      results, successful := [], 0;
      for i := 0 to |requests|
        invariant |results| == i
        invariant forall j | 0 <= j < i :: results[j] == EvalOne(lib, snap, limits, j, requests[j], view)
        invariant successful == CountSuccesses(results)
      {
        var result := EvalOne(lib, snap, limits, i, requests[i], view);
        assert (results + [result])[..i] == results;
        if result.result.Success? {
          successful := successful + 1;
        }
        results := results + [result];
      }
    }
    failed := |results| - successful;
  }

  /** The result of one request: the engine's own decision, seen through the view, if the context passes and the engine
      decides; else the context's error as text, or the engine's message. */
  ghost predicate RightResult<T>(lib: Libraries, engine: Engine, strict: bool, schemaLoaded: bool, limits: Limits,
                                 q: AuthRequest, view: Decision -> T, result: BatchResult<T>)
  {
    var context := ContextVerdict(lib, q.context, limits, strict, schemaLoaded);
    var evaluated := lib.evaluate(engine, q.request, q.context);
    match result
    case Success(data) => context.Pass? && evaluated.Ok? && data == view(evaluated.value)
    case Failed(message) =>
      || (context.Fail? && message == lib.display(context.error))
      || (context.Pass? && evaluated.Err? && message == evaluated.error)
  }

  /** Item i answers request i: its index, its client id, and the one result that is right for it. */
  lemma ItemsAnswerRequests<T>(lib: Libraries, snap: Snapshot, limits: Limits, requests: seq<AuthRequest>,
                               view: Decision -> T, results: seq<IndexedResult<T>>, i: nat)
    requires BatchOf(lib, snap, limits, requests, view, results) && i < |requests|
    ensures results[i].index == i && results[i].id == requests[i].id
    ensures results[i].result.Success? <==>
            && ContextVerdict(lib, requests[i].context, limits, snap.strict, snap.schemaLoaded).Pass?
            && lib.evaluate(snap.engine, requests[i].request, requests[i].context).Ok?
    ensures RightResult(lib, snap.engine, snap.strict, snap.schemaLoaded, limits, requests[i], view, results[i].result)
  {}

  /** The positions of the successful items. */
  function Successes<T>(results: seq<IndexedResult<T>>): set<nat> {
    set i: nat | i < |results| && results[i].result.Success?
  }

  /** The reported count is the number of successful items. */
  lemma {:induction false} CountIsCardinality<T>(results: seq<IndexedResult<T>>)
    ensures CountSuccesses(results) == |Successes(results)|
  {
    if results != [] {
      var n := |results| - 1;
      CountIsCardinality(results[..n]);
      if results[n].result.Success? {
        assert Successes(results) == Successes(results[..n]) + {n};
      } else {
        assert Successes(results) == Successes(results[..n]);
      }
    }
  }

  /** The brief and the detailed view of one batch succeed and fail on the same items with the same messages. */
  lemma {:induction false} ViewsAgree<T, U>(lib: Libraries, snap: Snapshot, limits: Limits, requests: seq<AuthRequest>,
                           brief: Decision -> T, detailed: Decision -> U,
                           results: seq<IndexedResult<T>>, results': seq<IndexedResult<U>>)
    requires BatchOf(lib, snap, limits, requests, brief, results)
    requires BatchOf(lib, snap, limits, requests, detailed, results')
    ensures forall i | 0 <= i < |requests| ::
              && results[i].result.Success? == results'[i].result.Success?
              && (results[i].result.Failed? ==> results[i].result.message == results'[i].result.message)
    ensures CountSuccesses(results) == CountSuccesses(results')
  {
    if requests != [] {
      var n := |requests| - 1;
      ViewsAgree(lib, snap, limits, requests[..n], brief, detailed, results[..n], results'[..n]);
    }
  }

  /** Both views keep the decision's version, and then every successful item carries the version of the snapshot. */
  lemma ItemsCarryVersion<T>(lib: Libraries, s: Store, limits: Limits, requests: seq<AuthRequest>, view: Decision -> T,
                             versionOf: T -> string, results: seq<IndexedResult<T>>, i: nat)
    requires DecisionsCarryVersion(lib) && forall d :: versionOf(view(d)) == d.version
    requires BatchOf(lib, TakeSnapshot(lib, s), limits, requests, view, results) && i < |results|
    ensures results[i].result.Success? ==> versionOf(results[i].result.data) == lib.version(s.active.engine)
  {}
}
