/** The call lifecycle as a pure state machine: the two flags of a FakeCall,
    what each operation does to them and reports, runs of operations on one
    call, and the compute-once cache of a DeferredCall in front of them. */
module Lifecycle {
  import opened CallValues

  /** The mutable state of one FakeCall. */
  datatype Flags = Flags(executed: bool, canceled: bool)

  /** The flags of a freshly built or cloned call. */
  const Idle: Flags := Flags(false, false)

  /** What the first claim delivers, given whether the call was canceled by then. */
  function Settle<T, E>(canceled: bool, o: Outcome<T, E>): (r: Result<T, E>)
    ensures r.Threw? ==> !Misuse(r.thrown)
    ensures r == Threw(Canceled) <==> canceled
    ensures r.Returned? <==> !canceled && o.Resp?
    ensures r.Returned? ==> r.response == o.response
    ensures !canceled && o.Err? ==> r == Threw(Stored(o.error))
  {
    if canceled then Threw(Canceled)
    else match o
      case Resp(x) => Returned(x)
      case Err(e) => Threw(Stored(e))
  }

  /** execute: claim the executed flag, then settle (Calls.java:104-115). */
  function Claim<T, E>(f: Flags, o: Outcome<T, E>): (r: (Flags, Result<T, E>))
    ensures r.0 == f.(executed := true)
    ensures r.1 == Threw(AlreadyExecuted) <==> f.executed
    ensures !f.executed ==> r.1 == Settle(f.canceled, o)
  {
    if f.executed then (f, Threw(AlreadyExecuted))
    else (f.(executed := true), Settle(f.canceled, o))
  }

  /** enqueue: the callback is checked before the claim (Calls.java:123-137). */
  function EnqueueClaim<T, E>(f: Flags, o: Outcome<T, E>, withCallback: bool): (r: (Flags, Result<T, E>))
    ensures !withCallback ==> r == (f, Threw(NullCallback))
    ensures withCallback ==> r == Claim(f, o)
  {
    if !withCallback then (f, Threw(NullCallback)) else Claim(f, o)
  }

  /** What enqueue throws at its caller for a claim that settled to `r`. */
  function Raised<T, E>(r: Result<T, E>): (t: Option<Thrown<E>>)
  {
    if r.Threw? && Misuse(r.thrown) then Some(r.thrown) else None
  }

  /** The handler calls enqueue makes for a claim that settled to `r`: exactly
      one call when nothing is thrown at the caller, none otherwise. */
  function Handlers<T, E>(r: Result<T, E>): (hs: seq<Handler<T, E>>)
    ensures |hs| == (if Raised(r).None? then 1 else 0)
    ensures r.Returned? ==> hs == [Responded(r.response)]
    ensures r.Threw? && !Misuse(r.thrown) ==> hs == [Failed(r.thrown)]
  {
    match r
    case Returned(x) => [Responded(x)]
    case Threw(t) => if Misuse(t) then [] else [Failed(t)]
  }

  /** request(): the request of the stored response, else the placeholder. */
  function RequestOf<T, E>(o: Outcome<T, E>): (q: HttpRequest)
    ensures o.Resp? ==> q == o.response.raw
    ensures o.Err? ==> q == Placeholder
  {
    match o
    case Resp(x) => x.raw
    case Err(_) => Placeholder
  }

  /** The operations of the Call interface that touch the lifecycle. */
  datatype Op = ExecuteOp | EnqueueOp(withCallback: bool) | CancelOp | IsExecutedOp | IsCanceledOp | RequestOp

  /** What an operation reports. */
  datatype Reply<T, E> =
    | Completed(result: Result<T, E>)
    | Observed(flag: bool)
    | Located(request: HttpRequest)
    | Done

  /** One operation on a FakeCall holding `o`, as one atomic step. */
  function Step<T, E>(f: Flags, o: Outcome<T, E>, op: Op): (r: (Flags, Reply<T, E>))
    ensures r.0.executed == (f.executed || IsClaim(op))
    ensures r.0.canceled == (f.canceled || op == CancelOp)
    ensures r.1.Completed? <==> op.ExecuteOp? || op.EnqueueOp?
    ensures op.IsExecutedOp? ==> r.1 == Observed(f.executed)
    ensures op.IsCanceledOp? ==> r.1 == Observed(f.canceled)
    ensures op.RequestOp? ==> r.1 == Located(RequestOf(o))
  {
    match op
    case ExecuteOp => var r := Claim(f, o); (r.0, Completed(r.1))
    case EnqueueOp(withCallback) => var r := EnqueueClaim(f, o, withCallback); (r.0, Completed(r.1))
    case CancelOp => (f.(canceled := true), Done)
    case IsExecutedOp => (f, Observed(f.executed))
    case IsCanceledOp => (f, Observed(f.canceled))
    case RequestOp => (f, Located(RequestOf(o)))
  }

  /** A sequence of operations on one FakeCall; neither flag is ever cleared. */
  function Run<T, E>(f: Flags, o: Outcome<T, E>, ops: seq<Op>): (res: (Flags, seq<Reply<T, E>>))
    ensures |res.1| == |ops|
    ensures f.executed ==> res.0.executed
    ensures f.canceled ==> res.0.canceled
    decreases |ops|
  {
    if ops == [] then (f, [])
    else
      var first := Step(f, o, ops[0]);
      var rest := Run(first.0, o, ops[1..]);
      (rest.0, [first.1] + rest.1)
  }

  /** An execute, or an enqueue with a callback: the operations that claim the call. */
  predicate IsClaim(op: Op)
  {
    op.ExecuteOp? || op == EnqueueOp(true)
  }

  predicate HasClaim(ops: seq<Op>)
  {
    exists i :: 0 <= i < |ops| && IsClaim(ops[i])
  }

  /** A reply that delivers an outcome: the stored one, or the cancellation. */
  predicate Delivers<T, E>(r: Reply<T, E>)
  {
    r.Completed? && Raised(r.result).None?
  }

  function CountDelivered<T, E>(rs: seq<Reply<T, E>>): (n: nat)
  {
    if rs == [] then 0
    else (if Delivers(rs[0]) then 1 else 0) + CountDelivered(rs[1..])
  }

  lemma HasClaimCons(ops: seq<Op>)
    requires ops != []
    ensures HasClaim(ops) <==> IsClaim(ops[0]) || HasClaim(ops[1..])
  {
  }

  /** One step delivers exactly when it is a claim on a call not yet executed. */
  lemma StepDelivers<T, E>(f: Flags, o: Outcome<T, E>, op: Op)
    ensures Delivers(Step(f, o, op).1) <==> IsClaim(op) && !f.executed
    ensures Step(f, o, op).0.executed == (f.executed || IsClaim(op))
  {
  }

  /** Whatever the interleaving of operations, a call delivers at most once:
      exactly once if it was not executed yet and some claim comes, and the
      executed flag records exactly that some claim came. */
  lemma {:induction false} OneShot<T, E>(f: Flags, o: Outcome<T, E>, ops: seq<Op>)
    ensures CountDelivered(Run(f, o, ops).1) == if !f.executed && HasClaim(ops) then 1 else 0
    ensures Run(f, o, ops).0.executed == (f.executed || HasClaim(ops))
    decreases |ops|
  {
    if ops != [] {
      var first := Step(f, o, ops[0]);
      var rest := Run(first.0, o, ops[1..]);
      OneShot(first.0, o, ops[1..]);
      StepDelivers(f, o, ops[0]);
      HasClaimCons(ops);
      assert ([first.1] + rest.1)[1..] == rest.1;
    }
  }

  /** Once executed, every claim reports "Already executed". */
  lemma {:induction false} ExecutedRejects<T, E>(f: Flags, o: Outcome<T, E>, ops: seq<Op>, j: nat)
    requires f.executed && j < |ops| && IsClaim(ops[j])
    ensures Run(f, o, ops).1[j] == Completed(Threw(AlreadyExecuted))
    decreases j
  {
    var first := Step(f, o, ops[0]);
    if j > 0 {
      ExecutedRejects(first.0, o, ops[1..], j - 1);
    }
  }

  /** Every claim after a claim on the same call reports "Already executed". */
  lemma {:induction false} LaterClaimsRejected<T, E>(f: Flags, o: Outcome<T, E>, ops: seq<Op>, i: nat, j: nat)
    requires i < j < |ops| && IsClaim(ops[i]) && IsClaim(ops[j])
    ensures Run(f, o, ops).1[j] == Completed(Threw(AlreadyExecuted))
    decreases i
  {
    var first := Step(f, o, ops[0]);
    if i == 0 {
      ExecutedRejects(first.0, o, ops[1..], j - 1);
    } else {
      LaterClaimsRejected(first.0, o, ops[1..], i - 1, j - 1);
    }
  }

  /** The first claim on an unexecuted call reports "canceled" exactly when a
      cancel came before it, and the stored outcome otherwise. */
  lemma {:induction false} FirstClaim<T, E>(f: Flags, o: Outcome<T, E>, ops: seq<Op>, i: nat)
    requires i < |ops| && IsClaim(ops[i]) && !f.executed
    requires forall k :: 0 <= k < i ==> !IsClaim(ops[k])
    ensures Run(f, o, ops).1[i] == Completed(Settle(f.canceled || exists k :: 0 <= k < i && ops[k] == CancelOp, o))
    decreases i
  {
    var first := Step(f, o, ops[0]);
    if i > 0 {
      var tail := ops[1..];
      forall k | 0 <= k < i - 1 ensures !IsClaim(tail[k]) {
        assert tail[k] == ops[k + 1];
      }
      FirstClaim(first.0, o, tail, i - 1);
      var before := exists k :: 0 <= k < i && ops[k] == CancelOp;
      var later := exists k :: 0 <= k < i - 1 && tail[k] == CancelOp;
      if later {
        var k :| 0 <= k < i - 1 && tail[k] == CancelOp;
        assert ops[k + 1] == CancelOp;
      }
      if before && ops[0] != CancelOp {
        var k :| 0 <= k < i && ops[k] == CancelOp;
        assert tail[k - 1] == ops[k];
      }
      assert first.0.canceled == (f.canceled || ops[0] == CancelOp);
    }
  }

  /** cancel is idempotent, never fails and leaves the executed flag alone. */
  lemma CancelIdempotent<T, E>(f: Flags, o: Outcome<T, E>)
    ensures Step(f, o, CancelOp).0 == Flags(f.executed, true)
    ensures Step(Step(f, o, CancelOp).0, o, CancelOp) == Step(f, o, CancelOp)
  {
  }

  // ----- DeferredCall -----

  /** What one invocation of a DeferredCall's supplier produces: the call it
      builds (its origin and outcome), or the exception it throws. */
  datatype Supplied<T, E> = Yields(invocation: Invocation, outcome: Outcome<T, E>) | Throws(exception: E)

  /** The outcome of the delegate built from what the supplier produced: a
      thrown exception becomes a failure call (Calls.java:180-184). */
  function Resolve<T, E>(s: Supplied<T, E>): (o: Outcome<T, E>)
    ensures s.Yields? ==> o == s.outcome
    ensures s.Throws? ==> OutcomeOf<T, E>(None, Some(s.exception)) == Some(o)
  {
    match s
    case Yields(_, o) => o
    case Throws(e) => Err(e)
  }

  /** The origin of that delegate: a thrown exception is wrapped by failure(Throwable). */
  function DelegateInvocation<T, E>(s: Supplied<T, E>): (inv: Invocation)
    ensures s.Yields? ==> inv == s.invocation
    ensures s.Throws? ==> inv.factory == FailureThrowableMethod
  {
    match s
    case Yields(inv, _) => inv
    case Throws(_) => Invocation(FailureThrowableMethod)
  }

  /** The cache of a DeferredCall: the delegate's flags once resolved, and how
      many times the supplier has run. */
  datatype Deferred = Deferred(delegate: Option<Flags>, supplierCalls: nat)

  /** A DeferredCall as made by defer or clone. */
  const Unresolved: Deferred := Deferred(None, 0)

  /** One operation on a DeferredCall: resolve the delegate if not yet done
      (running the supplier), then forward the operation to it. */
  function DeferredStep<T, E>(d: Deferred, s: Supplied<T, E>, op: Op): (r: (Deferred, Reply<T, E>))
    ensures r.0.delegate.Some?
    ensures r.0.supplierCalls == (if d.delegate.None? then d.supplierCalls + 1 else d.supplierCalls)
  {
    var f := if d.delegate.Some? then d.delegate.value else Idle;
    var calls := if d.delegate.Some? then d.supplierCalls else d.supplierCalls + 1;
    var step := Step(f, Resolve(s), op);
    (Deferred(Some(step.0), calls), step.1)
  }

  function DeferredRun<T, E>(d: Deferred, s: Supplied<T, E>, ops: seq<Op>): (res: (Deferred, seq<Reply<T, E>>))
    ensures |res.1| == |ops|
    ensures d.delegate.Some? ==> res.0.delegate.Some? && res.0.supplierCalls == d.supplierCalls
    decreases |ops|
  {
    if ops == [] then (d, [])
    else
      var first := DeferredStep(d, s, ops[0]);
      var rest := DeferredRun(first.0, s, ops[1..]);
      (rest.0, [first.1] + rest.1)
  }

  /** Once resolved, a DeferredCall is its delegate: the supplier does not run
      again and every reply is the delegate's. */
  lemma {:induction false} ResolvedForwards<T, E>(f: Flags, n: nat, s: Supplied<T, E>, ops: seq<Op>)
    ensures DeferredRun(Deferred(Some(f), n), s, ops)
         == (Deferred(Some(Run(f, Resolve(s), ops).0), n), Run(f, Resolve(s), ops).1)
    decreases |ops|
  {
    if ops != [] {
      var first := Step(f, Resolve(s), ops[0]);
      ResolvedForwards(first.0, n, s, ops[1..]);
    }
  }

  /** The supplier runs once on the first operation of any kind, and never again. */
  lemma SupplierRunsOnce<T, E>(s: Supplied<T, E>, ops: seq<Op>)
    ensures DeferredRun(Unresolved, s, ops).0.supplierCalls == if ops == [] then 0 else 1
    ensures ops != [] ==> DeferredRun(Unresolved, s, ops).0.delegate.Some?
  {
    if ops != [] {
      var first := DeferredStep(Unresolved, s, ops[0]);
      ResolvedForwards(first.0.delegate.value, 1, s, ops[1..]);
    }
  }

  /** Every operation on a DeferredCall answers as a fresh call holding the
      resolved outcome would. */
  lemma DeferredForwards<T, E>(s: Supplied<T, E>, ops: seq<Op>)
    ensures DeferredRun(Unresolved, s, ops).1 == Run(Idle, Resolve(s), ops).1
  {
    if ops != [] {
      var first := DeferredStep(Unresolved, s, ops[0]);
      ResolvedForwards(first.0.delegate.value, 1, s, ops[1..]);
    }
  }

  /** A DeferredCall delivers at most once, like the call it stands for. */
  lemma DeferredOneShot<T, E>(s: Supplied<T, E>, ops: seq<Op>)
    ensures CountDelivered(DeferredRun(Unresolved, s, ops).1) == if HasClaim(ops) then 1 else 0
  {
    DeferredForwards(s, ops);
    OneShot(Idle, Resolve(s), ops);
  }

  /** A supplier that throws surfaces its exception, unchanged, through the
      first claim; a cancel before that claim turns it into "canceled". */
  lemma ThrowingSupplierSurfaces<T, E>(s: Supplied<T, E>, ops: seq<Op>, i: nat)
    requires s.Throws?
    requires i < |ops| && IsClaim(ops[i])
    requires forall k :: 0 <= k < i ==> !IsClaim(ops[k])
    ensures (exists k :: 0 <= k < i && ops[k] == CancelOp) ==>
              DeferredRun(Unresolved, s, ops).1[i] == Completed(Threw(Canceled))
    ensures !(exists k :: 0 <= k < i && ops[k] == CancelOp) ==>
              DeferredRun(Unresolved, s, ops).1[i] == Completed(Threw(Stored(s.exception)))
  {
    DeferredForwards(s, ops);
    FirstClaim(Idle, Resolve(s), ops, i);
  }
}
