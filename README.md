# Corda RPC error masking and the AMQP reader factory, in Dafny

This project models two small components of the Corda repository and proves properties of them.

**RPC error masking** (`node/.../rpc/proxies/ExceptionMaskingRpcOpsProxy.kt`). Every call to the node's RPC
operations goes through an invocation handler that forwards the call to the real implementation. If the
call throws an `Exception`, the raw exception is logged (when logging is enabled) and then replaced by its
masked form. A throwable that is an instance of a whitelisted class (`ClientRelevantError`,
`TransactionVerificationException`, subclasses included) keeps its class and message. Any other one becomes
an `InternalNodeException` that carries only the `errorId` of an `IdentifiableException`. In both cases the
stack trace, cause and suppressed list are cleared. A returned value is classified by the first type test it
passes: future, data feed, flow progress handle, flow handle, observable, or plain. Each asynchronous shape
is rebuilt with the same structure, and its failure channel logs and then masks.

- `RpcErrors` (rpc_errors.dfy): throwables as values, the whitelist test, `Obfuscate` as a pure function, and
  `ExceptionObject`, a throwable whose diagnostic fields `RemoveDetails` clears in place.
- `RpcResults` (rpc_results.dfy): the five asynchronous shapes, the wrappers, `ObfuscateResult`, and the
  failures each value delivers.
- `RpcMasking` (rpc_masking.dfy): the handler as a class with a ghost log trace: `Invoke`, `Log`,
  `ObfuscateError` (which masks a whitelisted object in place and returns it), and the per-failure hook of
  a wrapped channel.

**AMQP reader factory** (`experimental/cpp-serializer/src/amqp/CompositeFactory.cxx`). This walks a schema
assumed to be in dependency order and builds a reader per type. Readers are memoised by type name in
`readersByType` through compute-if-absent, and each type's descriptor is aliased to the same reader in
`readersByDescriptor`. It answers lookups by type and by descriptor, with null for a missing key.

- `AmqpSchema` and `AmqpReaders` (amqp_schema.dfy, amqp_readers.dfy): type notations, opaque readers, and
  specification functions for what processing one type and a whole schema does to both maps, with lemmas.
- `AmqpCompositeFactory` (amqp_composite_factory.dfy): the factory as a class holding the two maps. Its
  methods update them in place with the source's loops and are proved equal to the specification functions.

Only `java.lang.Exception` is caught (line 40 of the proxy). A thrown throwable that is not an `Exception`
(a JVM `Error`) leaves the handler unlogged and unmasked (`Invoke`'s third postcondition).

Two behaviours of the factory follow from the code as written:

- A property reader is cached under its field's TYPE. It keeps the name of the first field that caused it
  to be built, and later fields of the same type share that reader.
- `processRestricted` returns null for a restricted type that is not a list. That null is cached under the
  type's name and under its descriptor.

## Model

| member | source | states |
|---|---|---|
| `RpcErrors.WhitelistedIff` | node/src/main/kotlin/net/corda/node/internal/rpc/proxies/ExceptionMaskingRpcOpsProxy.kt:105-107 | a throwable is whitelisted exactly when some whitelisted class is its own class or one of its supertypes (subclasses and implementors included) |
| `RpcErrors.WhitelistAdmits` | node/src/main/kotlin/net/corda/node/internal/rpc/proxies/ExceptionMaskingRpcOpsProxy.kt:24-27 | the proxy's whitelist is exactly `ClientRelevantError` and `TransactionVerificationException`: it admits exactly their instances |
| `RpcErrors.ErrorIdOf` | node/src/main/kotlin/net/corda/node/internal/rpc/proxies/ExceptionMaskingRpcOpsProxy.kt:90 | an errorId is reported exactly for an instance of IdentifiableException, and it is that throwable's own errorId |
| `RpcErrors.Obfuscate` | node/src/main/kotlin/net/corda/node/internal/rpc/proxies/ExceptionMaskingRpcOpsProxy.kt:89-93 | a whitelisted throwable keeps class, supertypes, message and errorId; any other becomes an InternalNodeException with no message and the errorId of an IdentifiableException (none otherwise); either way no stack trace, cause or suppressed throwables |
| `RpcErrors.ObfuscateIdempotent` | node/src/main/kotlin/net/corda/node/internal/rpc/proxies/ExceptionMaskingRpcOpsProxy.kt:89-93 | masking an already masked throwable changes nothing |
| `RpcErrors.ObfuscateIgnoresDiagnostics` | node/src/main/kotlin/net/corda/node/internal/rpc/proxies/ExceptionMaskingRpcOpsProxy.kt:89-103 | two throwables that differ only in stack trace, cause or suppressed list are masked to the same throwable |
| `RpcErrors.GenericRevealsOnlyErrorId` | node/src/main/kotlin/net/corda/node/internal/rpc/proxies/ExceptionMaskingRpcOpsProxy.kt:90 | two non-whitelisted throwables with the same reported errorId are masked to the same throwable, whatever their class and message |
| `RpcErrors.WhitelistedSubclassExposed` | node/src/main/kotlin/net/corda/node/internal/rpc/proxies/ExceptionMaskingRpcOpsProxy.kt:105-107 | an instance of a subclass of a whitelisted class is exposed as itself, only stripped of diagnostics |
| `RpcErrors.ExceptionObject.RemoveDetails` | node/src/main/kotlin/net/corda/node/internal/rpc/proxies/ExceptionMaskingRpcOpsProxy.kt:95-103 | clears the throwable in place so that it reads as its stripped form: no stack trace, no cause (Throwable's and, for Corda exceptions, the one setCause keeps), no suppressed; class, message and errorId as before |
| `RpcResults.Classify` | node/src/main/kotlin/net/corda/node/internal/rpc/proxies/ExceptionMaskingRpcOpsProxy.kt:48-55 | the first type test a value passes, in the source's order (future, data feed, progress handle, flow handle, observable), decides its shape; it is plain exactly when it passes none |
| `RpcResults.ProgressHandleNeverPlainFlowHandle` | node/src/main/kotlin/net/corda/node/internal/rpc/proxies/ExceptionMaskingRpcOpsProxy.kt:51-52 | a progress handle passes the flow-handle test too, yet is dispatched as a progress handle |
| `RpcResults.WrapFuture` | node/src/main/kotlin/net/corda/node/internal/rpc/proxies/ExceptionMaskingRpcOpsProxy.kt:79-81 | an incomplete future stays incomplete, a successful one is unchanged, and a failed one still fails, with a throwable free of diagnostics |
| `RpcResults.WrapObservable` | node/src/main/kotlin/net/corda/node/internal/rpc/proxies/ExceptionMaskingRpcOpsProxy.kt:71-73 | the same elements in the same order, the same kind of end (open, completed, errored), a terminal error free of diagnostics |
| `RpcResults.WrapFeed` | node/src/main/kotlin/net/corda/node/internal/rpc/proxies/ExceptionMaskingRpcOpsProxy.kt:75-77 | the snapshot is unchanged and the updates are wrapped as `WrapObservable` wraps an observable |
| `RpcResults.WrapFlowHandle` | node/src/main/kotlin/net/corda/node/internal/rpc/proxies/ExceptionMaskingRpcOpsProxy.kt:67-69 | the id is copied unchanged and the return value is wrapped as `WrapFuture` wraps a future |
| `RpcResults.WrapFlowProgressHandle` | node/src/main/kotlin/net/corda/node/internal/rpc/proxies/ExceptionMaskingRpcOpsProxy.kt:58-65 | the id is copied; the return value, the progress observable and each present steps-tree feed are wrapped on their own by `WrapFuture`, `WrapObservable` and `WrapFeed`; an absent feed stays absent |
| `RpcResults.ObfuscateResult` | node/src/main/kotlin/net/corda/node/internal/rpc/proxies/ExceptionMaskingRpcOpsProxy.kt:47-56 | the rebuilt value has the same shape as the original; each asynchronous shape is rebuilt by its own wrapper, and a plain value is returned unchanged |
| `RpcResults.WrappingKeepsSuccesses` | node/src/main/kotlin/net/corda/node/internal/rpc/proxies/ExceptionMaskingRpcOpsProxy.kt:47-81 | the rebuilt value keeps the shape, ids, success values, elements and snapshots of the original, and every stream ends the same way; only failures differ |
| `RpcResults.ProgressHandleFailuresMasked` | node/src/main/kotlin/net/corda/node/internal/rpc/proxies/ExceptionMaskingRpcOpsProxy.kt:58-65 | each of a progress handle's four channels is wrapped independently: the wrapped handle delivers the masked form of each constituent's failure, in field order |
| `RpcResults.WrappedFailuresAreMasked` | node/src/main/kotlin/net/corda/node/internal/rpc/proxies/ExceptionMaskingRpcOpsProxy.kt:47-81 | the rebuilt value delivers exactly the masked forms of the original's failures, channel by channel and in order, none added and none dropped |
| `RpcResults.NoDiagnosticsEscape` | node/src/main/kotlin/net/corda/node/internal/rpc/proxies/ExceptionMaskingRpcOpsProxy.kt:71-81 | no failure delivered through a rebuilt value carries a stack trace, cause or suppressed throwable |
| `RpcResults.ObfuscateResultIdempotent` | node/src/main/kotlin/net/corda/node/internal/rpc/proxies/ExceptionMaskingRpcOpsProxy.kt:47-56 | rebuilding a rebuilt value changes nothing |
| `RpcMasking.ErrorObfuscatingInvocationHandler.Log` | node/src/main/kotlin/net/corda/node/internal/rpc/proxies/ExceptionMaskingRpcOpsProxy.kt:83-87 | the log gains the untouched throwable when logging is enabled, and nothing otherwise |
| `RpcMasking.ErrorObfuscatingInvocationHandler.ObfuscateError` | node/src/main/kotlin/net/corda/node/internal/rpc/proxies/ExceptionMaskingRpcOpsProxy.kt:89-93 | the returned object reads as `Obfuscate` of the original; a whitelisted object is itself returned, stripped in place; otherwise a fresh object is returned and the original is left untouched |
| `RpcMasking.ErrorObfuscatingInvocationHandler.Invoke` | node/src/main/kotlin/net/corda/node/internal/rpc/proxies/ExceptionMaskingRpcOpsProxy.kt:36-45 | a null result stays null and any other result becomes `ObfuscateResult` of it, with no log record; a thrown Exception is logged once, raw and before it is stripped, and its masked form is thrown: a whitelisted exception is stripped in place and rethrown as the same object, any other is left untouched and a fresh exception is thrown; a thrown non-Exception leaves unchanged and unlogged |
| `RpcMasking.ErrorObfuscatingInvocationHandler.OnError` | node/src/main/kotlin/net/corda/node/internal/rpc/proxies/ExceptionMaskingRpcOpsProxy.kt:71-81 | a failure reaching a wrapped channel is logged raw and then passed on masked |
| `RpcMasking.ErrorObfuscatingInvocationHandler.DeliverFailures` | node/src/main/kotlin/net/corda/node/internal/rpc/proxies/ExceptionMaskingRpcOpsProxy.kt:58-81 | when every failure of a wrapped value is delivered, subscribers receive exactly the failures of `ObfuscateResult` of it, and the log gains each raw failure once, in the same order (nothing when logging is off) |
| `AmqpReaders.FieldStepKeepsCache` | experimental/cpp-serializer/src/amqp/CompositeFactory.cxx:126-155 | visiting a field keeps every cached entry and the key/type invariant, and leaves a non-null reader under the field's key |
| `AmqpReaders.CompositeFields` | experimental/cpp-serializer/src/amqp/CompositeFactory.cxx:116-161 | the loop keeps every cached entry and the key/type invariant, and collects exactly one reader per field, in field order; each is the non-null reader the final cache holds under that field's key |
| `AmqpReaders.CompositeFieldsAddsOnlyPrimitives` | experimental/cpp-serializer/src/amqp/CompositeFactory.cxx:123-159 | the only keys the loop adds are the types of primitive fields |
| `AmqpReaders.FieldReadersReadTheirKeys` | experimental/cpp-serializer/src/amqp/CompositeFactory.cxx:123-159 | each field reader reads the type its field is cached under |
| `AmqpReaders.BuildReader` | experimental/cpp-serializer/src/amqp/CompositeFactory.cxx:111-202 | building keeps every cached entry and the key/type invariant; a composite gets a composite reader of the field readers `CompositeFields` collects; a list gets a list reader of the element type's cached reader, and a list of a primitive type not cached yet first caches a property reader for it; a restricted type that is not a list gets a null reader and leaves the map unchanged |
| `AmqpReaders.ProcessType` | experimental/cpp-serializer/src/amqp/CompositeFactory.cxx:89-107 | a cached name returns its reader and leaves the map unchanged; otherwise the reader `BuildReader` builds is returned and cached under the name, on top of what building cached, keeping every other entry and the key/type invariant |
| `AmqpReaders.CompositeIsNeverNull` | experimental/cpp-serializer/src/amqp/CompositeFactory.cxx:94-101 | a composite type not yet cached is cached with a non-null composite reader holding one reader per field |
| `AmqpReaders.ListOfPrimitiveCachesElement` | experimental/cpp-serializer/src/amqp/CompositeFactory.cxx:182-191 | processing a list of a primitive type, neither cached yet, caches a property reader for the element type and a list reader that reads its elements with it |
| `AmqpReaders.ProcessTypes` | experimental/cpp-serializer/src/amqp/CompositeFactory.cxx:76-85 | processing keeps every cached entry and the key/type invariant, and caches every processed type's name |
| `AmqpReaders.ProcessAliases` | experimental/cpp-serializer/src/amqp/CompositeFactory.cxx:79-84 | the descriptor map gains exactly the processed types' descriptors |
| `AmqpReaders.ProcessTypesConcat` | experimental/cpp-serializer/src/amqp/CompositeFactory.cxx:79-84 | processing two runs of types one after the other is processing their concatenation, for both maps |
| `AmqpReaders.AliasesKeepOthers` | experimental/cpp-serializer/src/amqp/CompositeFactory.cxx:82 | a descriptor that no processed type has keeps its entry |
| `AmqpReaders.DescriptorAliasesName` | experimental/cpp-serializer/src/amqp/CompositeFactory.cxx:79-84 | after processing, every processed type's descriptor (not reused by a later type) maps to the very reader its name maps to |
| `AmqpReaders.ProcessCachedTypes` | experimental/cpp-serializer/src/amqp/CompositeFactory.cxx:36-55 | processing types whose names are all cached is a run of cache hits that leaves the map unchanged |
| `AmqpReaders.ReprocessingIsCacheHit` | experimental/cpp-serializer/src/amqp/CompositeFactory.cxx:76-107 | processing the same types a second time leaves the readers-by-type map unchanged |
| `AmqpCompositeFactory.CompositeFactory.ComputeIfAbsent` | experimental/cpp-serializer/src/amqp/CompositeFactory.cxx:29-56 | a present key returns its entry and leaves the map unchanged; a missing key gets `f()`, which is returned |
| `AmqpCompositeFactory.CompositeFactory.FieldReader` | experimental/cpp-serializer/src/amqp/CompositeFactory.cxx:126-155 | one field's turn of the loop: a primitive type's reader is cached if missing, and the reader taken is the non-null one under the field's key |
| `AmqpCompositeFactory.CompositeFactory.ProcessComposite` | experimental/cpp-serializer/src/amqp/CompositeFactory.cxx:111-162 | the map and the reader are those of `BuildReader`: a composite reader with one field reader per field |
| `AmqpCompositeFactory.CompositeFactory.ProcessRestricted` | experimental/cpp-serializer/src/amqp/CompositeFactory.cxx:166-202 | the map and the reader are those of `BuildReader`: a list reader of the element type's cached reader for a list; a list of a primitive type not yet cached adds exactly a property reader for the element type, a list of anything else changes nothing; any other restricted type gives null and changes nothing |
| `AmqpCompositeFactory.CompositeFactory.ProcessType` | experimental/cpp-serializer/src/amqp/CompositeFactory.cxx:89-107 | the map and the reader are those of `ProcessType`, and the key/type invariant is kept |
| `AmqpCompositeFactory.CompositeFactory.ProcessGroup` | experimental/cpp-serializer/src/amqp/CompositeFactory.cxx:80-83 | both maps end up as `ProcessTypes` and `ProcessAliases` of the group say |
| `AmqpCompositeFactory.CompositeFactory.Process` | experimental/cpp-serializer/src/amqp/CompositeFactory.cxx:76-85 | both maps end up as `ProcessTypes` and `ProcessAliases` of the schema's type notations say, and the key/type invariant is kept |
| `AmqpCompositeFactory.CompositeFactory.ByType` | experimental/cpp-serializer/src/amqp/CompositeFactory.cxx:206-212 | returns the cached reader when the type name is present and null otherwise; changes nothing |
| `AmqpCompositeFactory.CompositeFactory.ByDescriptor` | experimental/cpp-serializer/src/amqp/CompositeFactory.cxx:216-222 | returns the aliased reader when the descriptor is present and null otherwise; changes nothing |

## Left out

- Reflection and dynamic proxying (`newProxyInstance`, `declaredField`, `InvocationHandlerTemplate`). The
  handler is an explicit decorator, and the delegate's outcome is a parameter of `Invoke`. The
  `InvocationHandlerTemplate` class is not part of this model; the model takes the thrown value to be the
  exception the delegate threw.
- The scheduling, threading and cancellation of rx `Observable` and `CordaFuture`. Only what they deliver
  is modelled (values, elements, a terminal event), not when.
- The `doOnError`, `mapError` and `mapErrors` extensions are not part of this model. They are taken to act
  on the failure only, and on a `DataFeed` on its updates only.
- Failures on asynchronous channels are values. The in-place stripping of a whitelisted throwable object
  (aliasing) is modelled on the synchronous path only (`ObfuscateError`).
- `DeliverFailures`: the channels of a result fail independently and in any order; the model delivers
  and logs their failures in field order, one chosen interleaving. It also assumes one subscriber per
  channel: `doOnError` runs once per subscription, so each further subscriber logs the failure again.
- The logging sink and the log message text. The log is taken to render a throwable when `log` is called;
  the source hands the object itself to the logger and may strip it in place right afterwards, so a sink
  that renders later would see the stripped throwable. The log is a ghost trace of the raw throwables logged.
- `InternalNodeException` is not part of this model. The model takes it to carry no message and to be a
  `CordaRuntimeException` and an `IdentifiableException`.
- `CordaException` and `CordaRuntimeException` are not part of this model. The model takes their
  `setCause` to write a cause slot of their own, which their `cause` reports before `Throwable`'s.
- The `toString` overrides and the companion's `proxy` factory, which hold no masking logic.
- C++ `shared_ptr`/`weak_ptr` lifetimes, `dynamic_cast` and the `DBG` macros. A reader is a value, and a
  composite reader holds its field readers themselves.
- The bodies of `PropertyReader::make`, `CompositeReader`, `ListReader` and `Field::typeIsPrimitive`
  are not part of this model.
  - Readers are opaque constructors.
  - `PropertyReader::make` of a type name is taken to name the reader after the type.
  - `PropertyReader::make` of a field is taken to record the field's name and type; the observation that
    a property reader keeps the name of the first field that built it rests on this.
  - `Reader::type()` of a composite or list reader is taken to be the name it was built with; the
    key/type invariant (`Valid`, `KeysMatch`) rests on this.
  - The primitive type names are a parameter of the factory's constructor.
- The factory's header and constructor are not part of this model. The model's constructor starts with
  both maps empty.
- The C `assert`s at lines 43-45 and 52 are not modelled as aborts. The model follows a build in which they
  are disabled, so a null from `processRestricted` is cached.
- `AmqpReaders.FieldReady`: the asserts on a field's reader (lines 135, 143, 151) are preconditions.
- `AmqpReaders.BuildReady`: the default-inserting `operator[]` at lines 141, 149 and 194 becomes a
  precondition that the key is present.
- `node/src/test/kotlin/net/corda/node/migration/PersistentIdentityMigrationNewTableTest.kt`: a database
  test fixture with no logic of its own.
- `tools/shell/src/main/java/net/corda/tools/shell/RunShellCommand.java`: shell glue over a parser that is
  not part of this model.
- `core-tests/src/test/java/net/corda/coretests/schemas/TrickySchemaJavaV1.java`: an entity with getters
  and setters only.
