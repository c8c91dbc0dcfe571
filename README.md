# Mock calls of retrofit-mock, in Dafny

This project models `retrofit2.mock.Calls`. These are stand-ins for a Retrofit
`Call`, a pending HTTP call, that answer without any network:

- `FakeCall` holds one precomputed outcome: a response or an error.
  - Its first `execute`, or `enqueue` with a callback, claims the call. That claim reports the outcome, or "canceled" if `cancel` came first.
  - Every later claim fails with "Already executed".
  - `clone` gives a new call with the same outcome and fresh flags.
- `DeferredCall` is a compute-once cell in front of a supplier.
  - Its first `execute`, `enqueue`, `cancel`, `isExecuted`, `isCanceled` or `request` runs the supplier and caches the call that it yields. If the supplier throws, the cache holds a failure call built from that exception.
  - Each of those six operations, the first included, is forwarded to the cached call. `clone` and `invocation()` never touch the cache.
  - `clone` starts over with an empty cache.
- The factories `response`, `failure` and `defer` build these calls.

The model has three modules:

- `CallValues` (`values.dfy`) holds the values.
  - Requests and responses are opaque.
  - The stored `Outcome` is `Resp(response)` or `Err(error)`, so "exactly one of the two" holds by construction.
  - `Thrown` lists what a call throws or hands to `onFailure`: `AlreadyExecuted`, `NullCallback`, `Canceled` or the `Stored` error. The stored error type is a type parameter, so it can never be confused with the call's own exceptions.
  - `Invocation` is the origin descriptor.
- `Lifecycle` (`lifecycle.dfy`) is the pure state machine.
  - `Flags` holds `executed` and `canceled`.
  - `Step` is one operation as one atomic step. `Run` is a sequence of steps on one call.
  - `DeferredStep` and `DeferredRun` are the same for the cache of a `DeferredCall`.
  - The lemmas cover whole runs, in any order of operations. The call delivers at most once. Later claims are rejected. The first claim reports "canceled" exactly when a cancel came before it. The supplier runs once. A deferred call answers exactly as its delegate does.
- `Calls` (`calls.dfy`) holds the classes `FakeCall`, `DeferredCall` and `Callback`, plus the factories.
  - Each method that changes state is specified by the `Lifecycle` step it performs.
  - `DeferredCall` keeps a ghost counter of supplier invocations. Its `Valid()` ties that counter to the cache.
  - `callable`, the supplier, is a pure function. It returns `Supplied`: either the call it builds (origin and outcome) or the exception it throws.
  - `Callback` records each handler call in `fired`. `enqueue` returns what it throws at its caller.
  - The `invocation()` getters are the `const invocation` fields (Calls.java:162-164, 218-220).

`response(Response)` stores any response as the call's response, and `execute`
returns it whatever its HTTP status (Calls.java:60-63, 111-113).

## Model

| member | source | states |
|---|---|---|
| `CallValues.OutcomeOf` | retrofit-mock/src/main/java/retrofit2/mock/Calls.java:95-98 | a response and an error make an outcome exactly when exactly one is present, and the outcome keeps the one given |
| `CallValues.Fields` | retrofit-mock/src/main/java/retrofit2/mock/Calls.java:151-153 | the response and error fields of a call, passed back to the constructor by clone, pass its guard and rebuild the same outcome |
| `Lifecycle.Claim` | retrofit-mock/src/main/java/retrofit2/mock/Calls.java:104-115 | a claim always leaves the call executed and does not change the canceled flag; it reports "Already executed" exactly when the call was executed before, and otherwise "canceled" if canceled, or the stored response or error |
| `Lifecycle.EnqueueClaim` | retrofit-mock/src/main/java/retrofit2/mock/Calls.java:123-129 | a null callback is rejected and leaves the flags untouched; with a callback, enqueue claims the call exactly as execute does |
| `Lifecycle.Handlers` | retrofit-mock/src/main/java/retrofit2/mock/Calls.java:130-136 | enqueue calls exactly one handler once when it throws nothing at its caller, and none when it throws; onResponse gets the stored response; onFailure gets the cancellation or the stored error |
| `Lifecycle.Settle` | retrofit-mock/src/main/java/retrofit2/mock/Calls.java:108-114 | the first claim never reports a usage error; it reports "canceled" exactly when the call was canceled, the stored response exactly when it was not canceled and holds a response, and otherwise the stored error unchanged |
| `Lifecycle.RequestOf` | retrofit-mock/src/main/java/retrofit2/mock/Calls.java:155-160 | the request of the stored response when there is one, and the fixed placeholder when the call holds an error |
| `Lifecycle.Step` | retrofit-mock/src/main/java/retrofit2/mock/Calls.java:104-160 | one operation sets executed exactly when it is a claim, sets canceled exactly when it is a cancel, and completes exactly when it is an execute or an enqueue; isExecuted, isCanceled and request report the flag or request |
| `Lifecycle.Run` | retrofit-mock/src/main/java/retrofit2/mock/Calls.java:104-149 | every operation gives one reply, and neither flag is ever cleared |
| `Lifecycle.StepDelivers` | retrofit-mock/src/main/java/retrofit2/mock/Calls.java:104-137 | a single operation delivers an outcome exactly when it is a claim on an unexecuted call, and sets executed exactly then |
| `Lifecycle.OneShot` | retrofit-mock/src/main/java/retrofit2/mock/Calls.java:104-137 | in any sequence of operations a call delivers at most once: exactly once when it was unexecuted and some claim comes; executed ends true exactly when some claim came |
| `Lifecycle.ExecutedRejects` | retrofit-mock/src/main/java/retrofit2/mock/Calls.java:105-107 | once executed, every later execute or enqueue with a callback reports "Already executed" |
| `Lifecycle.LaterClaimsRejected` | retrofit-mock/src/main/java/retrofit2/mock/Calls.java:127-129 | any claim that follows a claim on the same call reports "Already executed" |
| `Lifecycle.FirstClaim` | retrofit-mock/src/main/java/retrofit2/mock/Calls.java:105-114 | the first claim reports "canceled" exactly when the call was canceled before it, and otherwise the stored response or error, because the executed check comes before the cancel check |
| `Lifecycle.CancelIdempotent` | retrofit-mock/src/main/java/retrofit2/mock/Calls.java:143-145 | cancel sets only the canceled flag, keeps executed, and a second cancel changes nothing |
| `Lifecycle.Resolve` | retrofit-mock/src/main/java/retrofit2/mock/Calls.java:180-184 | the delegate holds what the supplier yielded; a thrown exception becomes the outcome that failure(e) builds, which passes the constructor guard |
| `Lifecycle.DelegateInvocation` | retrofit-mock/src/main/java/retrofit2/mock/Calls.java:183 | the delegate keeps the origin of the call the supplier yielded; for a thrown exception the origin is the failure(Throwable) factory |
| `Lifecycle.DeferredStep` | retrofit-mock/src/main/java/retrofit2/mock/Calls.java:177-188 | after any operation the delegate is resolved, and the supplier has run once more exactly when it was not resolved before |
| `Lifecycle.DeferredRun` | retrofit-mock/src/main/java/retrofit2/mock/Calls.java:177-216 | a run on a deferred call gives one reply per operation, and once the delegate is cached it stays cached and the supplier never runs again |
| `Lifecycle.ResolvedForwards` | retrofit-mock/src/main/java/retrofit2/mock/Calls.java:190-216 | once resolved, a deferred call never runs the supplier again, and every reply and state change is its delegate's |
| `Lifecycle.SupplierRunsOnce` | retrofit-mock/src/main/java/retrofit2/mock/Calls.java:177-188 | over any sequence of operations on one deferred call the supplier runs once if there was any operation, never otherwise, and the delegate stays cached |
| `Lifecycle.DeferredForwards` | retrofit-mock/src/main/java/retrofit2/mock/Calls.java:190-216 | every reply of a deferred call equals the reply of a fresh call that holds the resolved outcome |
| `Lifecycle.DeferredOneShot` | retrofit-mock/src/main/java/retrofit2/mock/Calls.java:190-196 | a deferred call delivers exactly once if some claim comes, and never otherwise |
| `Lifecycle.ThrowingSupplierSurfaces` | retrofit-mock/src/main/java/retrofit2/mock/Calls.java:180-184 | when the supplier throws, the first claim reports that same exception as the stored error, or "canceled" if a cancel came first |
| `Calls.FakeCall.constructor` | retrofit-mock/src/main/java/retrofit2/mock/Calls.java:99-101 | the new call keeps the origin and outcome it was given, with both flags false |
| `Calls.FakeCall.New` | retrofit-mock/src/main/java/retrofit2/mock/Calls.java:95-102 | both or neither of response and error give no call (the AssertionError); otherwise a fresh unexecuted, uncanceled call holding the one given |
| `Calls.FakeCall.Execute` | retrofit-mock/src/main/java/retrofit2/mock/Calls.java:104-115 | the new flags and the result are those of a claim; executed ends true, canceled is unchanged, and "Already executed" is reported exactly when executed was already set |
| `Calls.FakeCall.Enqueue` | retrofit-mock/src/main/java/retrofit2/mock/Calls.java:122-137 | a null callback throws NullCallback and changes nothing; otherwise the flags change as for a claim, the usage error is thrown at the caller, and the callback gets exactly the handler calls of that claim |
| `Calls.FakeCall.IsExecuted` | retrofit-mock/src/main/java/retrofit2/mock/Calls.java:139-141 | returns the executed flag and changes nothing |
| `Calls.FakeCall.Cancel` | retrofit-mock/src/main/java/retrofit2/mock/Calls.java:143-145 | sets canceled and leaves executed and the outcome as they were |
| `Calls.FakeCall.IsCanceled` | retrofit-mock/src/main/java/retrofit2/mock/Calls.java:147-149 | returns the canceled flag and changes nothing |
| `Calls.FakeCall.Clone` | retrofit-mock/src/main/java/retrofit2/mock/Calls.java:151-153 | a fresh call with the same outcome and origin and both flags false; the original is not modified |
| `Calls.FakeCall.Request` | retrofit-mock/src/main/java/retrofit2/mock/Calls.java:155-160 | the request of the stored response, or the fixed placeholder when the call holds an error; changes nothing |
| `Calls.DeferredCall.constructor` | retrofit-mock/src/main/java/retrofit2/mock/Calls.java:172-175 | keeps the origin and supplier, with an empty cache and no supplier run |
| `Calls.DeferredCall.GetDelegate` | retrofit-mock/src/main/java/retrofit2/mock/Calls.java:177-188 | a cached delegate is returned as is without running the supplier; otherwise the supplier runs once and a fresh unexecuted delegate, holding the supplier's outcome or a failure from its exception, is cached and returned |
| `Calls.DeferredCall.Execute` | retrofit-mock/src/main/java/retrofit2/mock/Calls.java:190-192 | resolves the delegate, then executes it: new cache state and result are one deferred execute step |
| `Calls.DeferredCall.Enqueue` | retrofit-mock/src/main/java/retrofit2/mock/Calls.java:194-196 | resolves the delegate (even for a null callback), then enqueues on it: the cache state, what is thrown and the handler calls are one deferred enqueue step |
| `Calls.DeferredCall.IsExecuted` | retrofit-mock/src/main/java/retrofit2/mock/Calls.java:198-200 | resolves the delegate and returns its executed flag |
| `Calls.DeferredCall.Cancel` | retrofit-mock/src/main/java/retrofit2/mock/Calls.java:202-204 | resolves the delegate and cancels it |
| `Calls.DeferredCall.IsCanceled` | retrofit-mock/src/main/java/retrofit2/mock/Calls.java:206-208 | resolves the delegate and returns its canceled flag |
| `Calls.DeferredCall.Clone` | retrofit-mock/src/main/java/retrofit2/mock/Calls.java:210-212 | a fresh deferred call with the same supplier and origin and an empty cache, so its first use runs the supplier again; the original is not modified |
| `Calls.DeferredCall.Request` | retrofit-mock/src/main/java/retrofit2/mock/Calls.java:214-216 | resolves the delegate and returns its request |
| `Calls.Defer` | retrofit-mock/src/main/java/retrofit2/mock/Calls.java:50-53 | a fresh unresolved deferred call over the supplier, tagged as made by defer |
| `Calls.ResponseOfValue` | retrofit-mock/src/main/java/retrofit2/mock/Calls.java:55-58 | a fresh idle call holding Response.success of the value |
| `Calls.ResponseOf` | retrofit-mock/src/main/java/retrofit2/mock/Calls.java:60-63 | a fresh idle call holding the given response; a null response leaves both fields null and is rejected by the constructor guard, given as a null result |
| `Calls.FailureIO` | retrofit-mock/src/main/java/retrofit2/mock/Calls.java:66-70 | a fresh idle call holding the given error, tagged as failure(IOException); a null error is rejected by the constructor guard, given as a null result |
| `Calls.Failure` | retrofit-mock/src/main/java/retrofit2/mock/Calls.java:79-82 | a fresh idle call holding the given error, tagged as failure(Throwable); a null error is rejected by the constructor guard, given as a null result |

## Left out

- Atomicity and locking (Calls.java:92-93, 105, 177): the `AtomicBoolean` compare-and-set and the `synchronized` `getDelegate`. Each operation is modelled as one atomic step. The source's `execute` and `enqueue` read `canceled` only after their claim (Calls.java:105-108, 127-130), so a `cancel` that lands between the two reads gives histories that `Run` does not cover: a claim already rejected with "Already executed" can be followed by a cancel that the first claim still reports as "canceled".
- Reflection (Calls.java:32-44): the `Method` lookups. `Invocation` keeps only which factory made the call, not its argument list.
- `sneakyThrow2` (Calls.java:117-120): the stored error is returned as the value `Stored(error)`, unchanged.
- Values from okhttp and Retrofit: requests are a URL and responses are a body plus a raw request. `Response.success` is an opaque constructor with a fixed raw request. The placeholder `Request.Builder` is the constant `Placeholder`.
- `failure(IOException)` and `failure(Throwable)` take the same error type `E`. Only their `Invocation` tags differ.
- `Calls.FakeCall.New`: the AssertionError thrown on a bad construction is modelled as a null result, here and in the factories `response(Response)` and `failure` that reach it with a null argument. The plain constructor that `New` uses takes an `Outcome`, so it cannot be misused.
- The `Call` interface is not modelled as a type, because traits are not used here. Every delegate of a `DeferredCall` is a `FakeCall`.
  - A supplier is a pure function that describes the call it builds. So every instance and every clone of one deferred call resolves to the same outcome. A Java `Callable` may instead yield a different call on each invocation, which is why it runs again for each clone (Calls.java:46-48); that variation is not captured.
  - A supplier that returns a shared, already-used or deferred call object is not modelled.
  - A supplier that returns null is not modelled.
  - A supplier that throws a `java.lang.Error` is not modelled. Only `Exception` is caught, so such an `Error` would escape `getDelegate` and leave the cache empty.
- The `Call` argument that the callback handlers receive is not recorded. For a `DeferredCall` it is the delegate, not the deferred call. Exceptions thrown by the handlers themselves are not modelled.
- The private `Calls()` constructor (Calls.java:84-86) only forbids instances and is not modelled.
