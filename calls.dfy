/** The mock calls of Calls.java: FakeCall, which holds one precomputed
    outcome, DeferredCall, which builds its delegate on first use, and the
    factories that make them. Every operation is one atomic step; each method
    is specified by the step of the Lifecycle state machine it performs. */
module Calls {
  import opened CallValues
  import opened Lifecycle

  /** A Callback that records which handler was called, and with what. */
  class Callback<T, E> {
    var fired: seq<Handler<T, E>>

    constructor ()
      ensures fired == []
    {
      fired := [];
    }

    method OnResponse(response: Response<T>)
      modifies this
      ensures fired == old(fired) + [Responded(response)]
    {
      fired := fired + [Responded(response)];
    }

    method OnFailure(failure: Thrown<E>)
      modifies this
      ensures fired == old(fired) + [Failed(failure)]
    {
      fired := fired + [Failed(failure)];
    }
  }

  /** A call that responds with, or fails with, one stored outcome, once. */
  class FakeCall<T, E> {
    const invocation: Invocation
    const outcome: Outcome<T, E>
    var executed: bool
    var canceled: bool

    /** The lifecycle state of this call. */
    function State(): Flags
      reads this
    {
      Flags(executed, canceled)
    }

    constructor (invocation: Invocation, outcome: Outcome<T, E>)
      ensures this.invocation == invocation && this.outcome == outcome
      ensures State() == Idle
    {
      this.invocation := invocation;
      this.outcome := outcome;
      executed := false;
      canceled := false;
    }

    /** The guarded constructor: null stands for the AssertionError thrown
        when both or neither of the response and the error are given. */
    static method New(invocation: Invocation, response: Option<Response<T>>, error: Option<E>)
      returns (c: FakeCall?<T, E>)
      ensures c == null <==> (response.None? == error.None?)
      ensures c != null ==> fresh(c) && c.invocation == invocation && c.State() == Idle
      ensures c != null ==> Some(c.outcome) == OutcomeOf(response, error)
    {
      var o := OutcomeOf(response, error);
      if o.None? {
        return null;
      }
      c := new FakeCall(invocation, o.value);
    }

    /** execute: the first call claims the executed flag and reports
        "canceled" or the stored outcome; every later call reports
        "Already executed" and changes nothing. */
    method Execute() returns (r: Result<T, E>)
      modifies this
      ensures (State(), r) == Claim(old(State()), outcome)
      ensures executed && canceled == old(canceled)
      ensures r == Threw(AlreadyExecuted) <==> old(executed)
    {
      if executed {
        return Threw(AlreadyExecuted);
      }
      executed := true;
      if canceled {
        return Threw(Canceled);
      }
      match outcome
      case Resp(response) => r := Returned(response);
      case Err(error) => r := Threw(Stored(error));
    }

    /** enqueue: a null callback is rejected before the claim; otherwise the
        claim runs as in execute and its outcome goes to exactly one handler,
        or "Already executed" is thrown at the caller. */
    method Enqueue(callback: Callback?<T, E>) returns (thrown: Option<Thrown<E>>)
      modifies this, callback
      ensures var r := EnqueueClaim(old(State()), outcome, callback != null);
              State() == r.0 && thrown == Raised(r.1) &&
              (callback != null ==> callback.fired == old(callback.fired) + Handlers(r.1))
      ensures callback == null ==> State() == old(State()) && thrown == Some(NullCallback)
    {
      if callback == null {
        return Some(NullCallback);
      }
      if executed {
        return Some(AlreadyExecuted);
      }
      executed := true;
      if canceled {
        callback.OnFailure(Canceled);
      } else {
        match outcome
        case Resp(response) => callback.OnResponse(response);
        case Err(error) => callback.OnFailure(Stored(error));
      }
      thrown := None;
    }

    method IsExecuted() returns (b: bool)
      ensures b == executed
      ensures Step(State(), outcome, IsExecutedOp) == (State(), Observed(b))
    {
      b := executed;
    }

    /** cancel: sets the canceled flag, idempotently, and nothing else. */
    method Cancel()
      modifies this
      ensures State() == Step(old(State()), outcome, CancelOp).0
      ensures canceled && executed == old(executed)
    {
      canceled := true;
    }

    method IsCanceled() returns (b: bool)
      ensures b == canceled
      ensures Step(State(), outcome, IsCanceledOp) == (State(), Observed(b))
    {
      b := canceled;
    }

    /** clone: a new call with the same outcome and origin and fresh flags;
        this call is not changed. */
    method Clone() returns (c: FakeCall<T, E>)
      ensures fresh(c)
      ensures c.outcome == outcome && c.invocation == invocation && c.State() == Idle
    {
      var fields := Fields(outcome);
      var made := New(invocation, fields.0, fields.1);
      c := made;
    }

    /** request: the request of the stored response, or the placeholder
        when the call holds an error. */
    method Request() returns (q: HttpRequest)
      ensures outcome.Resp? ==> q == outcome.response.raw
      ensures outcome.Err? ==> q == Placeholder
      ensures Step(State(), outcome, RequestOp) == (State(), Located(q))
    {
      match outcome
      case Resp(response) => q := response.raw;
      case Err(_) => q := Placeholder;
    }
  }

  /** A call whose delegate is built by a supplier on its first execute,
      enqueue, cancel, isExecuted, isCanceled or request, cached, and sent
      each of those operations from then on. */
  class DeferredCall<T, E> {
    const invocation: Invocation
    const callable: () -> Supplied<T, E>
    var delegate: FakeCall?<T, E>
    /** How many times the supplier has run on this instance. */
    ghost var supplierCalls: nat

    /** The cache holds a delegate exactly when the supplier has run, once,
        and that delegate is the one built from what the supplier produced. */
    ghost predicate Valid()
      reads this
    {
      supplierCalls == (if delegate == null then 0 else 1) &&
      (delegate != null ==>
        delegate.outcome == Resolve(callable()) &&
        delegate.invocation == DelegateInvocation(callable()))
    }

    /** The cache seen as a Lifecycle state. */
    ghost function Model(): Deferred
      reads this, delegate
    {
      Deferred(if delegate == null then None else Some(delegate.State()), supplierCalls)
    }

    constructor (invocation: Invocation, callable: () -> Supplied<T, E>)
      ensures this.invocation == invocation && this.callable == callable
      ensures Valid() && delegate == null && Model() == Unresolved
    {
      this.invocation := invocation;
      this.callable := callable;
      delegate := null;
      supplierCalls := 0;
    }

    /** getDelegate: runs the supplier only when nothing is cached; a thrown
        exception becomes a failure call. */
    method GetDelegate() returns (d: FakeCall<T, E>)
      requires Valid()
      modifies this
      ensures Valid() && delegate == d
      ensures old(delegate) != null ==> d == old(delegate) && supplierCalls == old(supplierCalls)
      ensures old(delegate) == null ==> fresh(d) && d.State() == Idle && supplierCalls == 1
    {
      var cached := delegate;
      if cached == null {
        var supplied := callable();
        supplierCalls := supplierCalls + 1;
        match supplied {
          case Yields(inv, o) => d := new FakeCall(inv, o);
          case Throws(e) =>
            var made := Failure(Some(e));
            d := made;
        }
        delegate := d;
      } else {
        d := cached;
      }
    }

    method Execute() returns (r: Result<T, E>)
      requires Valid()
      modifies this, delegate
      ensures Valid() && delegate != null
      ensures old(delegate) != null ==> delegate == old(delegate)
      ensures old(delegate) == null ==> fresh(delegate)
      ensures (Model(), Completed(r)) == DeferredStep(old(Model()), callable(), ExecuteOp)
    {
      var d := GetDelegate();
      r := d.Execute();
    }

    method Enqueue(callback: Callback?<T, E>) returns (thrown: Option<Thrown<E>>)
      requires Valid()
      modifies this, delegate, callback
      ensures Valid() && delegate != null
      ensures old(delegate) != null ==> delegate == old(delegate)
      ensures old(delegate) == null ==> fresh(delegate)
      ensures var step := DeferredStep(old(Model()), callable(), EnqueueOp(callback != null));
              Model() == step.0 && step.1.Completed? && thrown == Raised(step.1.result) &&
              (callback != null ==> callback.fired == old(callback.fired) + Handlers(step.1.result))
    {
      var d := GetDelegate();
      thrown := d.Enqueue(callback);
    }

    method IsExecuted() returns (b: bool)
      requires Valid()
      modifies this, delegate
      ensures Valid() && delegate != null
      ensures old(delegate) != null ==> delegate == old(delegate)
      ensures old(delegate) == null ==> fresh(delegate)
      ensures (Model(), Observed(b)) == DeferredStep(old(Model()), callable(), IsExecutedOp)
    {
      var d := GetDelegate();
      b := d.IsExecuted();
    }

    method Cancel()
      requires Valid()
      modifies this, delegate
      ensures Valid() && delegate != null
      ensures old(delegate) != null ==> delegate == old(delegate)
      ensures old(delegate) == null ==> fresh(delegate)
      ensures (Model(), Done) == DeferredStep(old(Model()), callable(), CancelOp)
    {
      var d := GetDelegate();
      d.Cancel();
    }

    method IsCanceled() returns (b: bool)
      requires Valid()
      modifies this, delegate
      ensures Valid() && delegate != null
      ensures old(delegate) != null ==> delegate == old(delegate)
      ensures old(delegate) == null ==> fresh(delegate)
      ensures (Model(), Observed(b)) == DeferredStep(old(Model()), callable(), IsCanceledOp)
    {
      var d := GetDelegate();
      b := d.IsCanceled();
    }

    /** clone: the same supplier and origin with an empty cache, so the clone
        runs the supplier again; this call is not changed. */
    method Clone() returns (c: DeferredCall<T, E>)
      ensures fresh(c) && c.Valid()
      ensures c.callable == callable && c.invocation == invocation
      ensures c.delegate == null && c.Model() == Unresolved
    {
      c := new DeferredCall(invocation, callable);
    }

    method Request() returns (q: HttpRequest)
      requires Valid()
      modifies this, delegate
      ensures Valid() && delegate != null
      ensures old(delegate) != null ==> delegate == old(delegate)
      ensures old(delegate) == null ==> fresh(delegate)
      ensures (Model(), Located(q)) == DeferredStep(old(Model()), callable(), RequestOp)
    {
      var d := GetDelegate();
      q := d.Request();
    }
  }

  /** defer: a DeferredCall that runs `callable` once, and once more for each clone. */
  method Defer<T, E>(callable: () -> Supplied<T, E>) returns (c: DeferredCall<T, E>)
    ensures fresh(c) && c.Valid() && c.Model() == Unresolved
    ensures c.callable == callable && c.invocation == Invocation(DeferMethod)
  {
    c := new DeferredCall(Invocation(DeferMethod), callable);
  }

  /** response(T): a call that responds with Response.success(successValue). */
  method ResponseOfValue<T, E>(successValue: T) returns (c: FakeCall<T, E>)
    ensures fresh(c) && c.State() == Idle
    ensures c.outcome == Resp(Success(successValue)) && c.invocation == Invocation(ResponseValueMethod)
  {
    var made := FakeCall.New(Invocation(ResponseValueMethod), Some(Success(successValue)), None);
    c := made;
  }

  /** response(Response): a call that responds with `response`; a null
      response leaves both fields null, so the constructor guard rejects it. */
  method ResponseOf<T, E>(response: Option<Response<T>>) returns (c: FakeCall?<T, E>)
    ensures c == null <==> response.None?
    ensures c != null ==> fresh(c) && c.State() == Idle
    ensures c != null ==> c.outcome == Resp(response.value) && c.invocation == Invocation(ResponseResponseMethod)
  {
    c := FakeCall.New(Invocation(ResponseResponseMethod), response, None);
  }

  /** failure(IOException): a call that fails with `failure`; a null failure
      is rejected by the constructor guard. */
  method FailureIO<T, E>(failure: Option<E>) returns (c: FakeCall?<T, E>)
    ensures c == null <==> failure.None?
    ensures c != null ==> fresh(c) && c.State() == Idle
    ensures c != null ==> c.outcome == Err(failure.value) && c.invocation == Invocation(FailureIOExceptionMethod)
  {
    c := FakeCall.New(Invocation(FailureIOExceptionMethod), None, failure);
  }

  /** failure(Throwable): a call that fails with `failure`; a null failure
      is rejected by the constructor guard. */
  method Failure<T, E>(failure: Option<E>) returns (c: FakeCall?<T, E>)
    ensures c == null <==> failure.None?
    ensures c != null ==> fresh(c) && c.State() == Idle
    ensures c != null ==> c.outcome == Err(failure.value) && c.invocation == Invocation(FailureThrowableMethod)
  {
    c := FakeCall.New(Invocation(FailureThrowableMethod), None, failure);
  }
}
