/** Failure-carrying results shared by every model module. */
module Wrappers {

  datatype Option<+T> = None | Some(value: T)

  /** How an operation of the object model fails.
      TypeError: JavaScript throws a TypeError (a property read of undefined or null,
                 or a string method called on something that is not a string).
      MalformedResponse: a JSON field holds a JavaScript type other than the one the
                 TypeScript declaration gives it.
      Thrown: the source throws this message string itself. */
  datatype Error = TypeError | MalformedResponse | Thrown(message: string)

  datatype Result<+T> = Ok(value: T) | Err(error: Error) {
    predicate IsFailure() { Err? }

    function PropagateFailure<U>(): Result<U>
      requires Err?
    {
      Err(error)
    }

    function Extract(): T
      requires Ok?
    {
      value
    }
  }

  /** The outcome of a statement that either completes or throws. */
  datatype Outcome = Done | Fail(error: Error)

  /** `f` applied to each element in order, failing with the first failure, as a loop
      that throws out of its body does. */
  function MapResult<A, B>(xs: seq<A>, f: A -> Result<B>): (r: Result<seq<B>>)
    ensures r.Ok? <==> forall j :: 0 <= j < |xs| ==> f(xs[j]).Ok?
    ensures r.Ok? ==> |r.value| == |xs| && forall j :: 0 <= j < |xs| ==> r.value[j] == f(xs[j]).value
    decreases |xs|
  {
    if xs == [] then Ok([])
    else
      var b :- f(xs[0]);
      var rest :- MapResult(xs[1..], f);
      assert forall j :: 1 <= j < |xs| ==> xs[j] == xs[1..][j - 1];
      Ok([b] + rest)
  }

  /** The failure `MapResult` reports is that of the first element that fails. */
  lemma {:induction false} MapResultFirstError<A, B>(xs: seq<A>, f: A -> Result<B>, i: int)
    requires 0 <= i < |xs| && f(xs[i]).Err?
    requires forall j :: 0 <= j < i ==> f(xs[j]).Ok?
    ensures MapResult(xs, f) == Err(f(xs[i]).error)
    decreases i
  {
    if i > 0 {
      assert forall j :: 0 <= j < i - 1 ==> xs[1..][j] == xs[j + 1];
      MapResultFirstError(xs[1..], f, i - 1);
    }
  }
}
