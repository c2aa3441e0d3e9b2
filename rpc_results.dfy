/**
 * The results an RPC call can return, and how the masking proxy rebuilds them (`obfuscateResult`
 * and the five `wrap…` functions of ExceptionMaskingRpcOpsProxy). Only what each asynchronous
 * shape delivers is modelled (its values, elements and terminal failure), not when it delivers them.
 */
module RpcResults {
  import opened Wrappers
  import opened RpcErrors

  /** A StateMachineRunId. */
  type FlowId = string
  /** The steps tree of a flow's progress tracker: (depth, step label) pairs. */
  type StepsTree = seq<(int, string)>

  datatype Completion<+T> = Success(value: T) | Failure(error: Throwable)

  /** A CordaFuture: `None` while it has not completed, otherwise its one value or failure. */
  type Future<T> = Option<Completion<T>>

  datatype Termination = Open | Completed | Errored(error: Throwable)

  /** An rx Observable: the elements delivered so far, then possibly its terminal event. */
  datatype Observable<T> = Observable(elements: seq<T>, end: Termination)

  /** A DataFeed: a snapshot and the observable of updates that follow it. */
  datatype DataFeed<S, E> = DataFeed(snapshot: S, updates: Observable<E>)

  datatype FlowHandle<T> = FlowHandle(id: FlowId, returnValue: Future<T>)

  datatype FlowProgressHandle<T> = FlowProgressHandle(
    id: FlowId,
    returnValue: Future<T>,
    progress: Observable<string>,
    stepsTreeIndexFeed: Option<DataFeed<int, int>>,
    stepsTreeFeed: Option<DataFeed<StepsTree, StepsTree>>)

  /** A non-null value returned by the RPC implementation: one of the five asynchronous shapes, or a plain value. */
  datatype RpcValue<T> =
    | FutureValue(future: Future<T>)
    | FeedValue(feed: DataFeed<T, T>)
    | ProgressHandleValue(progressHandle: FlowProgressHandle<T>)
    | FlowHandleValue(flowHandle: FlowHandle<T>)
    | ObservableValue(observable: Observable<T>)
    | PlainValue(value: T)

  // The runtime type tests of `obfuscateResult`. A FlowProgressHandle is also a FlowHandle.
  predicate IsCordaFuture<T>(v: RpcValue<T>) { v.FutureValue? }
  predicate IsDataFeed<T>(v: RpcValue<T>) { v.FeedValue? }
  predicate IsFlowProgressHandle<T>(v: RpcValue<T>) { v.ProgressHandleValue? }
  predicate IsFlowHandle<T>(v: RpcValue<T>) { v.ProgressHandleValue? || v.FlowHandleValue? }
  predicate IsObservable<T>(v: RpcValue<T>) { v.ObservableValue? }

  datatype Shape = FutureShape | FeedShape | ProgressHandleShape | FlowHandleShape | ObservableShape | PlainShape

  /** The branch of `obfuscateResult`'s `when` a value takes: the first type test it passes, in source order. */
  function Classify<T>(v: RpcValue<T>): (s: Shape)
    ensures s == PlainShape <==>
      !IsCordaFuture(v) && !IsDataFeed(v) && !IsFlowProgressHandle(v) && !IsFlowHandle(v) && !IsObservable(v)
    ensures IsCordaFuture(v) ==> s == FutureShape
    ensures !IsCordaFuture(v) && IsDataFeed(v) ==> s == FeedShape
    ensures !IsCordaFuture(v) && !IsDataFeed(v) && IsFlowProgressHandle(v) ==> s == ProgressHandleShape
    ensures !IsCordaFuture(v) && !IsDataFeed(v) && !IsFlowProgressHandle(v) && IsFlowHandle(v) ==> s == FlowHandleShape
    ensures !IsCordaFuture(v) && !IsDataFeed(v) && !IsFlowHandle(v) && IsObservable(v) ==> s == ObservableShape
    ensures s == FlowHandleShape ==> IsFlowHandle(v) && !IsFlowProgressHandle(v)
  {
    if IsCordaFuture(v) then FutureShape
    else if IsDataFeed(v) then FeedShape
    else if IsFlowProgressHandle(v) then ProgressHandleShape
    else if IsFlowHandle(v) then FlowHandleShape
    else if IsObservable(v) then ObservableShape
    else PlainShape
  }

  /** A progress handle passes the FlowHandle test too, but the earlier test claims it. */
  lemma ProgressHandleNeverPlainFlowHandle<T>(v: RpcValue<T>)
    requires IsFlowProgressHandle(v)
    ensures IsFlowHandle(v) && Classify(v) == ProgressHandleShape
  {
  }

  /** `wrapFuture`: a value passes unchanged, a failure is delivered masked, an incomplete future stays incomplete. */
  function WrapFuture<T>(whitelist: set<ClassName>, f: Future<T>): (r: Future<T>)
    ensures r.None? <==> f.None?
    ensures f.Some? && f.value.Success? ==> r == f
    ensures r.Some? && r.value.Success? ==> r == f
    ensures f.Some? && f.value.Failure? ==> r.Some? && r.value.Failure? && Sanitized(r.value.error)
  {
    match f
    case None => None
    case Some(Success(x)) => Some(Success(x))
    case Some(Failure(e)) => Some(Failure(Obfuscate(whitelist, e)))
  }

  /** `wrapObservable`: the same elements in the same order, the same kind of end, a terminal error masked. */
  function WrapObservable<T>(whitelist: set<ClassName>, s: Observable<T>): (r: Observable<T>)
    ensures r.elements == s.elements
    ensures r.end.Open? == s.end.Open? && r.end.Completed? == s.end.Completed?
    ensures r.end.Errored? ==> Sanitized(r.end.error)
  {
    match s.end
    case Errored(e) => Observable(s.elements, Errored(Obfuscate(whitelist, e)))
    case _ => s
  }

  /** `wrapFeed`: the snapshot unchanged, the updates wrapped like an observable. */
  function WrapFeed<S, E>(whitelist: set<ClassName>, feed: DataFeed<S, E>): (r: DataFeed<S, E>)
    ensures r.snapshot == feed.snapshot
    ensures r.updates == WrapObservable(whitelist, feed.updates)
  {
    DataFeed(feed.snapshot, WrapObservable(whitelist, feed.updates))
  }

  /** `wrapFlowHandle`: the id copied, only the return value wrapped. */
  function WrapFlowHandle<T>(whitelist: set<ClassName>, handle: FlowHandle<T>): (r: FlowHandle<T>)
    ensures r.id == handle.id
    ensures r.returnValue == WrapFuture(whitelist, handle.returnValue)
  {
    FlowHandle(handle.id, WrapFuture(whitelist, handle.returnValue))
  }

  /** `wrapFlowProgressHandle`: the id copied, each asynchronous field wrapped on its own, an absent feed left absent. */
  function WrapFlowProgressHandle<T>(whitelist: set<ClassName>, handle: FlowProgressHandle<T>): (r: FlowProgressHandle<T>)
    ensures r.id == handle.id
    ensures r.stepsTreeIndexFeed.None? <==> handle.stepsTreeIndexFeed.None?
    ensures r.stepsTreeFeed.None? <==> handle.stepsTreeFeed.None?
    ensures r.returnValue == WrapFuture(whitelist, handle.returnValue)
    ensures r.progress == WrapObservable(whitelist, handle.progress)
    ensures handle.stepsTreeIndexFeed.Some? ==>
      r.stepsTreeIndexFeed.value == WrapFeed(whitelist, handle.stepsTreeIndexFeed.value)
    ensures handle.stepsTreeFeed.Some? ==> r.stepsTreeFeed.value == WrapFeed(whitelist, handle.stepsTreeFeed.value)
  {
    FlowProgressHandle(
      handle.id,
      WrapFuture(whitelist, handle.returnValue),
      WrapObservable(whitelist, handle.progress),
      MapOption(handle.stepsTreeIndexFeed, (feed: DataFeed<int, int>) => WrapFeed(whitelist, feed)),
      MapOption(handle.stepsTreeFeed, (feed: DataFeed<StepsTree, StepsTree>) => WrapFeed(whitelist, feed)))
  }

  /** `obfuscateResult`: dispatch on the first matching shape; a plain value is returned as it is. */
  function ObfuscateResult<T>(whitelist: set<ClassName>, v: RpcValue<T>): (r: RpcValue<T>)
    ensures Classify(r) == Classify(v)
    ensures Classify(v) == PlainShape ==> r == v
    ensures Classify(v) == FutureShape ==> r == FutureValue(WrapFuture(whitelist, v.future))
    ensures Classify(v) == FeedShape ==> r == FeedValue(WrapFeed(whitelist, v.feed))
    ensures Classify(v) == ProgressHandleShape ==>
      r == ProgressHandleValue(WrapFlowProgressHandle(whitelist, v.progressHandle))
    ensures Classify(v) == FlowHandleShape ==> r == FlowHandleValue(WrapFlowHandle(whitelist, v.flowHandle))
    ensures Classify(v) == ObservableShape ==> r == ObservableValue(WrapObservable(whitelist, v.observable))
  {
    match Classify(v)
    case FutureShape => FutureValue(WrapFuture(whitelist, v.future))
    case FeedShape => FeedValue(WrapFeed(whitelist, v.feed))
    case ProgressHandleShape => ProgressHandleValue(WrapFlowProgressHandle(whitelist, v.progressHandle))
    case FlowHandleShape => FlowHandleValue(WrapFlowHandle(whitelist, v.flowHandle))
    case ObservableShape => ObservableValue(WrapObservable(whitelist, v.observable))
    case PlainShape => v
  }

  // ----- What a wrapped value keeps: everything but its failures -----

  /** Two futures agree on everything but a failure's throwable. */
  ghost predicate FutureAgrees<T>(f: Future<T>, g: Future<T>)
  {
    f.None? == g.None? &&
    (f.Some? ==> f.value.Success? == g.value.Success? && (f.value.Success? ==> f.value.value == g.value.value))
  }

  /** Two observables deliver the same elements and end the same way, apart from a terminal error's throwable. */
  ghost predicate ObservableAgrees<T>(s: Observable<T>, t: Observable<T>)
  {
    s.elements == t.elements && s.end.Open? == t.end.Open? && s.end.Completed? == t.end.Completed?
  }

  ghost predicate FeedAgrees<S, E>(a: DataFeed<S, E>, b: DataFeed<S, E>)
  {
    a.snapshot == b.snapshot && ObservableAgrees(a.updates, b.updates)
  }

  ghost predicate OptionalFeedAgrees<S, E>(a: Option<DataFeed<S, E>>, b: Option<DataFeed<S, E>>)
  {
    a.None? == b.None? && (a.Some? ==> FeedAgrees(a.value, b.value))
  }

  /** Two results have the same shape and deliver the same values, elements and snapshots. */
  ghost predicate SuccessesAgree<T>(v: RpcValue<T>, w: RpcValue<T>)
  {
    match (v, w)
    case (FutureValue(f), FutureValue(g)) => FutureAgrees(f, g)
    case (FeedValue(a), FeedValue(b)) => FeedAgrees(a, b)
    case (ProgressHandleValue(h), ProgressHandleValue(k)) =>
      h.id == k.id && FutureAgrees(h.returnValue, k.returnValue) && ObservableAgrees(h.progress, k.progress)
      && OptionalFeedAgrees(h.stepsTreeIndexFeed, k.stepsTreeIndexFeed)
      && OptionalFeedAgrees(h.stepsTreeFeed, k.stepsTreeFeed)
    case (FlowHandleValue(h), FlowHandleValue(k)) => h.id == k.id && FutureAgrees(h.returnValue, k.returnValue)
    case (ObservableValue(s), ObservableValue(t)) => ObservableAgrees(s, t)
    case (PlainValue(x), PlainValue(y)) => x == y
    case _ => false
  }

  /**
   * Wrapping keeps every success value, element, snapshot and id, and the way each stream ends; with
   * WrappedFailuresAreMasked this pins the wrapped result down entirely.
   */
  lemma WrappingKeepsSuccesses<T>(whitelist: set<ClassName>, v: RpcValue<T>)
    ensures SuccessesAgree(v, ObfuscateResult(whitelist, v))
  {
  }

  // ----- The failures a value delivers, and what the wrapped value delivers instead -----

  function FutureFailures<T>(f: Future<T>): seq<Throwable>
  {
    if f.Some? && f.value.Failure? then [f.value.error] else []
  }

  function ObservableFailures<T>(s: Observable<T>): seq<Throwable>
  {
    if s.end.Errored? then [s.end.error] else []
  }

  function FeedFailures<S, E>(feed: Option<DataFeed<S, E>>): seq<Throwable>
  {
    if feed.Some? then ObservableFailures(feed.value.updates) else []
  }

  /**
   * Every failure a result delivers, one per failure channel, in the order of the handle's fields.
   * The constituents of a handle fail independently of each other.
   */
  function Failures<T>(v: RpcValue<T>): seq<Throwable>
  {
    match v
    case FutureValue(f) => FutureFailures(f)
    case FeedValue(feed) => ObservableFailures(feed.updates)
    case ProgressHandleValue(h) =>
      FutureFailures(h.returnValue) + ObservableFailures(h.progress)
        + FeedFailures(h.stepsTreeIndexFeed) + FeedFailures(h.stepsTreeFeed)
    case FlowHandleValue(h) => FutureFailures(h.returnValue)
    case ObservableValue(s) => ObservableFailures(s)
    case PlainValue(_) => []
  }

  /** Each throwable masked on its own, in order. */
  function ObfuscateAll(whitelist: set<ClassName>, es: seq<Throwable>): (rs: seq<Throwable>)
    ensures |rs| == |es|
  {
    if es == [] then [] else [Obfuscate(whitelist, es[0])] + ObfuscateAll(whitelist, es[1..])
  }

  lemma {:induction false} ObfuscateAllConcat(whitelist: set<ClassName>, a: seq<Throwable>, b: seq<Throwable>)
    ensures ObfuscateAll(whitelist, a + b) == ObfuscateAll(whitelist, a) + ObfuscateAll(whitelist, b)
  {
    if a == [] {
      assert a + b == b;
    } else {
      assert (a + b)[0] == a[0];
      assert (a + b)[1..] == a[1..] + b;
      ObfuscateAllConcat(whitelist, a[1..], b);
    }
  }

  lemma FutureFailuresMasked<T>(whitelist: set<ClassName>, f: Future<T>)
    ensures FutureFailures(WrapFuture(whitelist, f)) == ObfuscateAll(whitelist, FutureFailures(f))
  {
  }

  lemma ObservableFailuresMasked<T>(whitelist: set<ClassName>, s: Observable<T>)
    ensures ObservableFailures(WrapObservable(whitelist, s)) == ObfuscateAll(whitelist, ObservableFailures(s))
  {
  }

  lemma FeedFailuresMasked<S, E>(whitelist: set<ClassName>, feed: Option<DataFeed<S, E>>)
    ensures FeedFailures(MapOption(feed, (x: DataFeed<S, E>) => WrapFeed(whitelist, x)))
         == ObfuscateAll(whitelist, FeedFailures(feed))
  {
    if feed.Some? {
      ObservableFailuresMasked(whitelist, feed.value.updates);
    }
  }

  lemma {:induction false} ProgressHandleFailuresMasked<T>(whitelist: set<ClassName>, h: FlowProgressHandle<T>)
    ensures Failures(ProgressHandleValue(WrapFlowProgressHandle(whitelist, h)))
         == ObfuscateAll(whitelist, Failures(ProgressHandleValue(h)))
  {
    var w := WrapFlowProgressHandle(whitelist, h);
    var a, b, c, d := FutureFailures(h.returnValue), ObservableFailures(h.progress),
      FeedFailures(h.stepsTreeIndexFeed), FeedFailures(h.stepsTreeFeed);
    FutureFailuresMasked(whitelist, h.returnValue);
    ObservableFailuresMasked(whitelist, h.progress);
    FeedFailuresMasked(whitelist, h.stepsTreeIndexFeed);
    FeedFailuresMasked(whitelist, h.stepsTreeFeed);
    ObfuscateAllConcat(whitelist, a, b);
    ObfuscateAllConcat(whitelist, a + b, c);
    ObfuscateAllConcat(whitelist, a + b + c, d);
  }

  /**
   * The wrapped result delivers, channel by channel and in the same order, exactly the masked forms of
   * the failures the original delivers: each constituent independently, none added, none dropped.
   */
  lemma {:induction false} WrappedFailuresAreMasked<T>(whitelist: set<ClassName>, v: RpcValue<T>)
    ensures Failures(ObfuscateResult(whitelist, v)) == ObfuscateAll(whitelist, Failures(v))
  {
    match v
    case ProgressHandleValue(h) => ProgressHandleFailuresMasked(whitelist, h);
    case FutureValue(f) => FutureFailuresMasked(whitelist, f);
    case FeedValue(feed) => ObservableFailuresMasked(whitelist, feed.updates);
    case FlowHandleValue(h) => FutureFailuresMasked(whitelist, h.returnValue);
    case ObservableValue(s) => ObservableFailuresMasked(whitelist, s);
    case PlainValue(_) =>
  }

  /** No raw throwable leaves through a wrapped result: every failure it delivers is free of diagnostics. */
  lemma NoDiagnosticsEscape<T>(whitelist: set<ClassName>, v: RpcValue<T>)
    ensures forall e :: e in Failures(ObfuscateResult(whitelist, v)) ==> Sanitized(e)
  {
  }

  /** Wrapping a wrapped result again changes nothing. */
  lemma ObfuscateResultIdempotent<T>(whitelist: set<ClassName>, v: RpcValue<T>)
    ensures ObfuscateResult(whitelist, ObfuscateResult(whitelist, v)) == ObfuscateResult(whitelist, v)
  {
  }
}
