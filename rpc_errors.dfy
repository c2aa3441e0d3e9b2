/**
 * The errors that cross the node's RPC boundary, and the masking rule applied to them
 * (`obfuscate`, `removeDetails` and `isWhitelisted` of ExceptionMaskingRpcOpsProxy).
 */
module RpcErrors {
  import opened Wrappers

  /** A fully qualified JVM class or interface name. */
  type ClassName = string
  /** One frame of a JVM stack trace, as rendered. */
  type StackFrame = string

  const ClientRelevantError: ClassName := "net.corda.core.ClientRelevantError"
  const TransactionVerificationException: ClassName := "net.corda.core.contracts.TransactionVerificationException"
  const IdentifiableException: ClassName := "net.corda.core.flows.IdentifiableException"
  const InternalNodeException: ClassName := "net.corda.nodeapi.exceptions.InternalNodeException"
  const CordaException: ClassName := "net.corda.core.CordaException"
  const CordaRuntimeException: ClassName := "net.corda.core.CordaRuntimeException"
  const JavaException: ClassName := "java.lang.Exception"
  const JavaRuntimeException: ClassName := "java.lang.RuntimeException"
  const JavaThrowable: ClassName := "java.lang.Throwable"

  /** The classes whose instances (subclasses included) keep their identity when they cross the boundary. */
  const Whitelist: set<ClassName> := {ClientRelevantError, TransactionVerificationException}

  /** Every class and interface an InternalNodeException is an instance of, besides its own class. */
  const InternalNodeSupertypes: set<ClassName> :=
    {CordaRuntimeException, JavaRuntimeException, JavaException, JavaThrowable, IdentifiableException}

  /**
   * A JVM throwable as a value: its runtime class, every class and interface that class extends or
   * implements, its message, its diagnostics (stack trace, cause, suppressed list) and the `errorId`
   * it reports when it is an IdentifiableException.
   */
  datatype Throwable = Throwable(
    className: ClassName,
    supertypes: set<ClassName>,
    message: Option<string>,
    stackTrace: seq<StackFrame>,
    cause: Option<Throwable>,
    suppressed: seq<Throwable>,
    errorId: Option<int>)

  /** `cls.isInstance(e)`: the runtime class of `e` is `cls` or a subtype of it. */
  predicate IsInstance(cls: ClassName, e: Throwable)
  {
    cls == e.className || cls in e.supertypes
  }

  /** `whitelist.any { it.isInstance(e) }` */
  predicate IsWhitelisted(whitelist: set<ClassName>, e: Throwable)
  {
    exists cls :: cls in whitelist && IsInstance(cls, e)
  }

  /** A throwable is whitelisted exactly when its own class, or one of its supertypes, is in the whitelist. */
  lemma {:induction false} WhitelistedIff(whitelist: set<ClassName>, e: Throwable)
    ensures IsWhitelisted(whitelist, e) <==> e.className in whitelist || whitelist * e.supertypes != {}
  {
    if e.className in whitelist {
      assert IsInstance(e.className, e);
    } else if whitelist * e.supertypes != {} {
      var cls :| cls in whitelist * e.supertypes;
      assert cls in whitelist && IsInstance(cls, e);
    } else {
      forall cls | cls in whitelist ensures !IsInstance(cls, e) {
        assert cls !in whitelist * e.supertypes;
      }
    }
  }

  /** The proxy's whitelist admits exactly the instances of ClientRelevantError and TransactionVerificationException. */
  lemma WhitelistAdmits(e: Throwable)
    ensures IsWhitelisted(Whitelist, e) <==>
      IsInstance(ClientRelevantError, e) || IsInstance(TransactionVerificationException, e)
  {
  }

  /** `(e as? IdentifiableException)?.errorId` */
  function ErrorIdOf(e: Throwable): (id: Option<int>)
    ensures id.Some? ==> IsInstance(IdentifiableException, e) && id == e.errorId
    ensures IsInstance(IdentifiableException, e) ==> id == e.errorId
  {
    if IsInstance(IdentifiableException, e) then e.errorId else None
  }

  /** A throwable carries no diagnostics: empty stack trace, no cause, no suppressed throwables. */
  predicate Sanitized(e: Throwable)
  {
    e.stackTrace == [] && e.cause.None? && e.suppressed == []
  }

  /** What `removeDetails` leaves of a throwable: everything but its diagnostics. */
  function Stripped(e: Throwable): (r: Throwable)
    ensures Sanitized(r)
    ensures r.className == e.className && r.supertypes == e.supertypes
    ensures r.message == e.message && r.errorId == e.errorId
  {
    e.(stackTrace := [], cause := None, suppressed := [])
  }

  /** A newly built `InternalNodeException(errorId)`, thrown from `stack`; it carries no message of its own. */
  function NewInternalNodeException(errorId: Option<int>, stack: seq<StackFrame>): Throwable
  {
    Throwable(InternalNodeException, InternalNodeSupertypes, None, stack, None, [], errorId)
  }

  /**
   * `obfuscate`: a whitelisted throwable keeps its class and message, any other one is replaced by an
   * InternalNodeException that keeps only the errorId of an IdentifiableException; either way the
   * diagnostics are gone.
   */
  function Obfuscate(whitelist: set<ClassName>, e: Throwable): (r: Throwable)
    ensures IsWhitelisted(whitelist, e) ==>
      r.className == e.className && r.supertypes == e.supertypes && r.message == e.message && r.errorId == e.errorId
    ensures !IsWhitelisted(whitelist, e) ==>
      r.className == InternalNodeException && r.message.None? && r.errorId == ErrorIdOf(e)
    ensures Sanitized(r)
  {
    Stripped(if IsWhitelisted(whitelist, e) then e else NewInternalNodeException(ErrorIdOf(e), []))
  }

  /** Masking an already masked throwable changes nothing. */
  lemma ObfuscateIdempotent(whitelist: set<ClassName>, e: Throwable)
    ensures Obfuscate(whitelist, Obfuscate(whitelist, e)) == Obfuscate(whitelist, e)
  {
  }

  /** Nothing of the diagnostics of a throwable reaches the caller. */
  lemma ObfuscateIgnoresDiagnostics(whitelist: set<ClassName>, e1: Throwable, e2: Throwable)
    requires Stripped(e1) == Stripped(e2)
    ensures Obfuscate(whitelist, e1) == Obfuscate(whitelist, e2)
  {
  }

  /** Of a throwable that is not whitelisted, only the errorId of an IdentifiableException reaches the caller. */
  lemma GenericRevealsOnlyErrorId(whitelist: set<ClassName>, e1: Throwable, e2: Throwable)
    requires !IsWhitelisted(whitelist, e1) && !IsWhitelisted(whitelist, e2)
    requires ErrorIdOf(e1) == ErrorIdOf(e2)
    ensures Obfuscate(whitelist, e1) == Obfuscate(whitelist, e2)
  {
  }

  /** A subclass of a whitelisted class is exposed under its own class and message. */
  lemma WhitelistedSubclassExposed(e: Throwable)
    requires TransactionVerificationException in e.supertypes || ClientRelevantError in e.supertypes
    ensures Obfuscate(Whitelist, e) == Stripped(e)
  {
  }

  /**
   * A throwable object whose diagnostic fields `removeDetails` clears in place. `causeField`,
   * `suppressedExceptions` and `stackTrace` are the fields of java.lang.Throwable (a null
   * `suppressedExceptions` reads as no suppressed throwables); `cordaCause` is the cause that
   * CordaException and CordaRuntimeException keep for `setCause`, which their `cause` reports first.
   */
  class ExceptionObject {
    const className: ClassName
    const supertypes: set<ClassName>
    const message: Option<string>
    const errorId: Option<int>
    var stackTrace: seq<StackFrame>
    var causeField: Option<Throwable>
    var cordaCause: Option<Throwable>
    var suppressedExceptions: Option<seq<Throwable>>

    /** The throwable as its holders see it. */
    function Value(): (e: Throwable)
      reads this
      ensures e.className == className && e.supertypes == supertypes
      ensures e.message == message && e.errorId == errorId && e.stackTrace == stackTrace
    {
      Throwable(className, supertypes, message, stackTrace,
        if IsCordaException() && cordaCause.Some? then cordaCause else causeField,
        if suppressedExceptions.Some? then suppressedExceptions.value else [],
        errorId)
    }

    predicate IsCordaException()
    {
      className in {CordaException, CordaRuntimeException} || CordaException in supertypes || CordaRuntimeException in supertypes
    }

    constructor (e: Throwable)
      ensures Value() == e
    {
      className, supertypes, message, errorId := e.className, e.supertypes, e.message, e.errorId;
      stackTrace := e.stackTrace;
      causeField, cordaCause := e.cause, None;
      suppressedExceptions := Some(e.suppressed);
    }

    /** `removeDetails`: clears the diagnostics in place, leaving class, message and errorId as they were. */
    method RemoveDetails()
      modifies this
      ensures Value() == Stripped(old(Value()))
    {
      stackTrace := [];
      causeField := None;
      suppressedExceptions := None;
      if IsCordaException() {
        cordaCause := None;
      }
    }
  }
}
