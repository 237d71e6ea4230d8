/** Option and Result, used for JavaScript's `undefined` and thrown errors. */
module Wrappers {

  datatype Option<+T> = None | Some(value: T)

  /** A computation that either produces a value or throws an Error with a message. */
  datatype Result<+T> = Success(value: T) | Failure(error: string) {
    predicate IsFailure() {
      Failure?
    }

    function PropagateFailure<U>(): Result<U>
      requires Failure?
    {
      Failure(error)
    }

    function Extract(): T
      requires Success?
    {
      value
    }
  }

  predicate FirstFailure<A, B>(items: seq<A>, f: A -> Result<B>, i: nat, error: string)
    requires i < |items|
  {
    && f(items[i]) == Failure(error)
    && forall k :: 0 <= k < i ==> f(items[k]).Success?
  }

  /** `items.map(f)` where `f` may throw: the first error thrown ends it. */
  function MapOrThrow<A, B>(items: seq<A>, f: A -> Result<B>): (r: Result<seq<B>>)
    ensures r.Success? <==> forall i :: 0 <= i < |items| ==> f(items[i]).Success?
    ensures r.Success? ==> |r.value| == |items| && forall i :: 0 <= i < |items| ==> r.value[i] == f(items[i]).value
    ensures r.Failure? ==> exists i :: 0 <= i < |items| && FirstFailure(items, f, i, r.error)
  {
    if items == [] then Success([])
    else
      var first := f(items[0]);
      if first.Failure? then
        assert FirstFailure(items, f, 0, first.error);
        Failure(first.error)
      else
        var rest := MapOrThrow(items[1..], f);
        if rest.Failure? then
          assert exists i :: 1 <= i < |items| && FirstFailure(items, f, i, rest.error) by {
            var i :| 0 <= i < |items[1..]| && FirstFailure(items[1..], f, i, rest.error);
            assert FirstFailure(items, f, i + 1, rest.error);
          }
          Failure(rest.error)
        else Success([first.value] + rest.value)
  }
}
