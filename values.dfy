/** The values a mock call carries: requests, responses, the outcome a call is
    built with, and what its operations report. */
module CallValues {

  datatype Option<T> = None | Some(value: T)

  /** An HTTP request, reduced to the URL that identifies it. */
  datatype HttpRequest = HttpRequest(url: string)

  /** The request a call without a response reports (Calls.java:159). */
  const Placeholder: HttpRequest := HttpRequest("http://localhost")

  /** The request of the raw response that Response.success synthesizes.
      Response.success is not part of this model; this fixed request stands for it. */
  const SuccessRaw: HttpRequest := HttpRequest("http://localhost/")

  /** A retrofit Response: its body and the request its raw response answered. */
  datatype Response<T> = Response(body: T, raw: HttpRequest)

  /** Response.success(body), taken as an opaque constructor. */
  function Success<T>(body: T): Response<T>
  {
    Response(body, SuccessRaw)
  }

  /** What a FakeCall is built with: a response or an error, never both and never neither. */
  datatype Outcome<T, E> = Resp(response: Response<T>) | Err(error: E)

  /** The guard of the FakeCall constructor: a response and an error, each
      possibly null, make an outcome exactly when one of them is present. */
  function OutcomeOf<T, E>(response: Option<Response<T>>, error: Option<E>): (r: Option<Outcome<T, E>>)
    ensures r.None? <==> (response.None? == error.None?)
    ensures r.Some? ==> (r.value.Resp? <==> response.Some?)
    ensures r.Some? && r.value.Resp? ==> response == Some(r.value.response)
    ensures r.Some? && r.value.Err? ==> error == Some(r.value.error)
  {
    match (response, error)
    case (Some(x), None) => Some(Resp(x))
    case (None, Some(e)) => Some(Err(e))
    case _ => None
  }

  /** The nullable response and error fields of a FakeCall that holds `o`;
      clone passes them back to the constructor, whose guard accepts them. */
  function Fields<T, E>(o: Outcome<T, E>): (r: (Option<Response<T>>, Option<E>))
    ensures OutcomeOf(r.0, r.1) == Some(o)
  {
    match o
    case Resp(x) => (Some(x), None)
    case Err(e) => (None, Some(e))
  }

  /** What a call throws from execute or enqueue, or hands to Callback.onFailure. */
  datatype Thrown<E> =
    | AlreadyExecuted   // IllegalStateException("Already executed")
    | NullCallback      // NullPointerException("callback == null")
    | Canceled          // IOException("canceled")
    | Stored(error: E)  // the call's own error, rethrown unchanged

  /** The usage errors: thrown at the caller, never handed to a callback. */
  predicate Misuse<E>(t: Thrown<E>)
  {
    t.AlreadyExecuted? || t.NullCallback?
  }

  /** What execute reports: the response it returns, or what it throws. */
  datatype Result<T, E> = Returned(response: Response<T>) | Threw(thrown: Thrown<E>)

  /** A call of one of the two Callback handlers, with its argument. */
  datatype Handler<T, E> = Responded(response: Response<T>) | Failed(failure: Thrown<E>)

  /** The factory methods of Calls, which the reflective Invocation names. */
  datatype Factory =
    | DeferMethod
    | ResponseValueMethod
    | ResponseResponseMethod
    | FailureIOExceptionMethod
    | FailureThrowableMethod

  /** The origin descriptor of a call: which factory made it. */
  datatype Invocation = Invocation(factory: Factory)
}
