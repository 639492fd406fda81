/** Failure-compatible result types for the generator.

    The generator reports problems by raising Python exceptions; the model
    returns a `Result` whose failure case names the exception that the code
    raises at that point. */
module Outcome {

  datatype Option<+T> = None | Some(value: T)

  /** The Python exception raised by the generator, with the detail that
      identifies it (the missing key, the missing name, the message). */
  datatype Error =
    | KeyError(key: string)
    | TypeError(what: string)
    | NameError(name: string)
    | ValueError(msg: string)
    | IndexError(what: string)
    | AttributeError(what: string)

  datatype Result<+T> = Ok(value: T) | Err(error: Error) {

    predicate IsFailure() {
      Err?
    }

    function PropagateFailure<U>(): Result<U>
      requires Err?
    {
      Err(error)
    }

    function Extract(): T
      requires Ok?
    {
      value
    }
  }

  /** `[f(x) for x in xs]` where `f` may raise: the results in order, or
      the exception of the first element that raises. */
  function MapResult<T, U>(xs: seq<T>, f: T -> Result<U>): (r: Result<seq<U>>)
    ensures r.Ok? <==> forall i :: 0 <= i < |xs| ==> f(xs[i]).Ok?
    ensures r.Ok? ==> |r.value| == |xs| && forall i :: 0 <= i < |xs| ==> r.value[i] == f(xs[i]).value
    ensures r.Err? ==> exists i :: 0 <= i < |xs| && f(xs[i]) == Err(r.error) && forall j :: 0 <= j < i ==> f(xs[j]).Ok?
  {
    if |xs| == 0 then Ok([])
    else
      var first :- f(xs[0]);
      var rest :- MapResult(xs[1..], f);
      Ok([first] + rest)
  }

  /** `[f(x, start + i) for i, x in enumerate(xs)]` where `f` may raise:
      the results in order, or the exception of the first element that
      raises. */
  function MapIndexed<T, U>(xs: seq<T>, start: nat, f: (T, nat) -> Result<U>): (r: Result<seq<U>>)
    ensures r.Ok? <==> forall i :: 0 <= i < |xs| ==> f(xs[i], start + i).Ok?
    ensures r.Ok? ==> |r.value| == |xs| && forall i :: 0 <= i < |xs| ==> r.value[i] == f(xs[i], start + i).value
    ensures r.Err? ==> exists i :: 0 <= i < |xs| && f(xs[i], start + i) == Err(r.error)
                                   && forall j :: 0 <= j < i ==> f(xs[j], start + j).Ok?
    decreases |xs|
  {
    if |xs| == 0 then Ok([])
    else
      var first :- f(xs[0], start);
      var rest :- MapIndexed(xs[1..], start + 1, f);
      Ok([first] + rest)
  }
}
