/**
 * The invocation handler of ExceptionMaskingRpcOpsProxy as an explicit decorator: every call is
 * forwarded to the delegate, a thrown exception is logged and then masked, and a returned value is
 * rebuilt so that its failure channels log and mask in the same way. The logging sink is a ghost
 * trace of the raw throwables it was given.
 */
module RpcMasking {
  import opened Wrappers
  import opened RpcErrors
  import opened RpcResults

  /** What a call of the delegate did: returned a (possibly null) value, or threw. */
  datatype Invocation<T> = Returned(result: Option<RpcValue<T>>) | Threw(exception: ExceptionObject)
  {
    /** The objects a call through the handler may change: only a thrown exception. */
    function Thrown(): set<object>
    {
      if Threw? then {exception} else {}
    }
  }

  class ErrorObfuscatingInvocationHandler {
    const whitelist: set<ClassName>
    const doLog: bool
    /** The raw throwables handed to the logger, oldest first. */
    ghost var logged: seq<Throwable>

    constructor (whitelist: set<ClassName>, doLog: bool)
      ensures this.whitelist == whitelist && this.doLog == doLog && logged == []
    {
      this.whitelist := whitelist;
      this.doLog := doLog;
      logged := [];
    }

    /** The log record `log` leaves for a throwable. */
    ghost function LogEntry(error: Throwable): seq<Throwable>
    {
      if doLog then [error] else []
    }

    /** `log`: records the throwable, untouched, when logging is enabled. */
    method Log(error: Throwable)
      modifies this`logged
      ensures logged == old(logged) + LogEntry(error)
    {
      if doLog {
        logged := logged + [error];
      }
    }

    /**
     * `obfuscate` on a throwable object: a whitelisted one is stripped IN PLACE and returned itself;
     * any other one is left alone and a new InternalNodeException, built at `callStack`, is stripped
     * and returned instead.
     */
    method ObfuscateError(error: ExceptionObject, callStack: seq<StackFrame>) returns (exposed: ExceptionObject)
      modifies error
      ensures exposed.Value() == Obfuscate(whitelist, old(error.Value()))
      ensures IsWhitelisted(whitelist, old(error.Value())) ==> exposed == error
      ensures !IsWhitelisted(whitelist, old(error.Value())) ==> fresh(exposed) && unchanged(error)
    {
      ghost var raw := error.Value();
      if IsWhitelisted(whitelist, error.Value()) {
        exposed := error;
      } else {
        exposed := new ExceptionObject(NewInternalNodeException(ErrorIdOf(error.Value()), callStack));
      }
      exposed.RemoveDetails();
    }

    /**
     * `invoke`: forwards the call (its outcome is `delegate`). A null result stays null and any other
     * result is rebuilt by `obfuscateResult`. A thrown Exception is logged first, raw, and then what
     * `obfuscate` makes of it is thrown instead: a whitelisted one is stripped in place and rethrown
     * as the same object, any other one is left untouched and a new exception is thrown; a throwable that is not an Exception (a JVM Error) is
     * not caught and leaves as it is.
     */
    method Invoke<T>(delegate: Invocation<T>, callStack: seq<StackFrame>) returns (outcome: Invocation<T>)
      modifies this`logged, delegate.Thrown()
      ensures delegate.Returned? ==>
        outcome == Returned(MapOption(delegate.result, (v: RpcValue<T>) => ObfuscateResult(whitelist, v)))
        && logged == old(logged)
      ensures delegate.Threw? && IsInstance(JavaException, old(delegate.exception.Value())) ==>
        && outcome.Threw?
        && outcome.exception.Value() == Obfuscate(whitelist, old(delegate.exception.Value()))
        && logged == old(logged) + LogEntry(old(delegate.exception.Value()))
        && (IsWhitelisted(whitelist, old(delegate.exception.Value())) ==> outcome.exception == delegate.exception)
        && (!IsWhitelisted(whitelist, old(delegate.exception.Value())) ==>
              fresh(outcome.exception) && unchanged(delegate.exception))
      ensures delegate.Threw? && !IsInstance(JavaException, old(delegate.exception.Value())) ==>
        outcome == delegate && unchanged(delegate.exception) && logged == old(logged)
    {
      match delegate
      case Returned(result) =>
        outcome := Returned(MapOption(result, (v: RpcValue<T>) => ObfuscateResult(whitelist, v)));
      case Threw(exception) =>
        if IsInstance(JavaException, exception.Value()) {
          Log(exception.Value());
          var exposed := ObfuscateError(exception, callStack);
          outcome := Threw(exposed);
        } else {
          outcome := delegate;
        }
    }

    /**
     * A wrapped channel delivering a failure: `doOnError(::log)` and then `mapError(::obfuscate)`.
     * The raw throwable is logged before the masked one is passed on.
     */
    method OnError(error: Throwable) returns (exposed: Throwable)
      modifies this`logged
      ensures logged == old(logged) + LogEntry(error)
      ensures exposed == Obfuscate(whitelist, error)
    {
      Log(error);
      exposed := Obfuscate(whitelist, error);
    }

    /**
     * Every failure of a wrapped result reaching its subscriber, one channel after another: each is
     * logged raw exactly once (when logging is on), and the subscribers receive exactly the failures
     * of `ObfuscateResult(whitelist, v)`.
     */
    method DeliverFailures<T>(v: RpcValue<T>) returns (delivered: seq<Throwable>)
      modifies this`logged
      ensures delivered == Failures(ObfuscateResult(whitelist, v))
      ensures logged == old(logged) + (if doLog then Failures(v) else [])
    {
      var raw := Failures(v);
      delivered := [];
      var i := 0;
      while i < |raw|
        invariant 0 <= i <= |raw|
        invariant delivered == ObfuscateAll(whitelist, raw[..i])
        invariant logged == old(logged) + (if doLog then raw[..i] else [])
      {
        var exposed := OnError(raw[i]);
        ObfuscateAllConcat(whitelist, raw[..i], [raw[i]]);
        assert raw[..i + 1] == raw[..i] + [raw[i]];
        delivered := delivered + [exposed];
        i := i + 1;
      }
      assert raw[..i] == raw;
      WrappedFailuresAreMasked(whitelist, v);
    }
  }
}
