/**
  Values shared by every part of the model: an optional value (a pandas NaN or
  a Python `None`), the exceptions the source can raise, a result that is
  either a value or the exception that ended the computation, and the Python
  values that can sit in a date-component list (an `int` or a `str`).
*/
module Outcomes {

  datatype Option<T> = None | Some(value: T)

  /** The Python exceptions the modelled code raises and does not catch. */
  datatype PyException =
    | IndexError          // a list index past the end
    | KeyError            // a missing dictionary key
    | TypeError           // e.g. `{**t}` where `t` is a tuple
    | ValueError          // `int()` of a non-numeric string, an invalid `datetime`, a missing rate
    | UnboundLocalError   // a variable read after a loop that assigned it never ran
    | AttributeError      // `.dt` on a column that holds no datetimes
    | OverflowError       // a `datetime` argument beyond the range of a C `int`

  datatype Result<T> = Success(value: T) | Failure(error: PyException)
  {
    predicate IsFailure() { Failure? }

    function PropagateFailure<U>(): Result<U>
      requires Failure?
    {
      Failure(error)
    }

    function Extract(): T
      requires Success?
    {
      value
    }
  }

  /** A Python value inside a date-component list: an `int` or a `str`. */
  datatype Item = Int(n: int) | Str(s: string)

  /** The outcomes of a run, in order, gathered as the loop does: the values
      up to the first exception, which then ends the run. */
  function Collect<T>(outs: seq<Result<T>>): (r: Result<seq<T>>)
    ensures r.Success? ==> |r.value| == |outs|
  {
    if outs == [] then Success([])
    else
      var init :- Collect(outs[..|outs| - 1]);
      var last :- outs[|outs| - 1];
      Success(init + [last])
  }

  /** A run succeeds exactly when every call does, and then it holds their
      values in order. */
  lemma {:induction false} CollectSuccess<T>(outs: seq<Result<T>>)
    ensures Collect(outs).Success? <==> forall k :: 0 <= k < |outs| ==> outs[k].Success?
    ensures Collect(outs).Success? ==> forall k :: 0 <= k < |outs| ==> Collect(outs).value[k] == outs[k].value
  {
    if outs != [] {
      var init := outs[..|outs| - 1];
      CollectSuccess(init);
      assert forall k :: 0 <= k < |init| ==> init[k] == outs[k];
    }
  }

  /** Once a prefix has failed, the rest of the run is never looked at. */
  lemma {:induction false} CollectPrefixFailure<T>(outs: seq<Result<T>>, n: nat)
    requires n <= |outs| && Collect(outs[..n]).Failure?
    ensures Collect(outs) == Collect(outs[..n])
    decreases |outs| - n
  {
    if n < |outs| {
      assert outs[..n + 1][..n] == outs[..n];
      CollectPrefixFailure(outs, n + 1);
    } else {
      assert outs[..n] == outs;
    }
  }

  /** The run fails with the exception of its first failing call. */
  lemma CollectFirstFailure<T>(outs: seq<Result<T>>, n: nat)
    requires n < |outs| && outs[n].Failure?
    requires forall k :: 0 <= k < n ==> outs[k].Success?
    ensures Collect(outs) == Failure(outs[n].error)
  {
    var front := outs[..n];
    assert forall k :: 0 <= k < n ==> front[k] == outs[k];
    CollectSuccess(front);
    assert outs[..n + 1][..n] == front;
    CollectPrefixFailure(outs, n + 1);
  }

  /** One more call of the loop: a failure ends the run with its exception,
      a value extends the collected prefix. */
  lemma CollectStep<T>(outs: seq<Result<T>>, k: nat, values: seq<T>)
    requires k < |outs| && Collect(outs[..k]) == Success(values)
    ensures outs[k].Failure? ==> Collect(outs) == Failure(outs[k].error)
    ensures outs[k].Success? ==> Collect(outs[..k + 1]) == Success(values + [outs[k].value])
  {
    assert outs[..k + 1][..k] == outs[..k];
    if outs[k].Failure? {
      CollectPrefixFailure(outs, k + 1);
    }
  }

  /** When every call that can fail fails with the same exception, so does the run. */
  lemma {:induction false} CollectFailureError<T>(outs: seq<Result<T>>, e: PyException)
    requires forall k :: 0 <= k < |outs| ==> outs[k].Failure? ==> outs[k].error == e
    ensures Collect(outs).Failure? ==> Collect(outs).error == e
  {
    if outs != [] {
      var init := outs[..|outs| - 1];
      assert forall k :: 0 <= k < |init| ==> init[k] == outs[k];
      CollectFailureError(init, e);
    }
  }

  /** `f` applied to every element in order, up to the first exception
      (pandas `apply` of a function that may raise). */
  function CollectMap<A, B>(xs: seq<A>, f: A -> Result<B>): (r: Result<seq<B>>)
    ensures r.Success? ==> |r.value| == |xs|
  {
    Collect(seq(|xs|, k requires 0 <= k < |xs| => f(xs[k])))
  }

  lemma CollectMapFacts<A, B>(xs: seq<A>, f: A -> Result<B>)
    ensures CollectMap(xs, f).Success? <==> forall k :: 0 <= k < |xs| ==> f(xs[k]).Success?
    ensures CollectMap(xs, f).Success? ==>
      |CollectMap(xs, f).value| == |xs| && forall k :: 0 <= k < |xs| ==> CollectMap(xs, f).value[k] == f(xs[k]).value
  {
    var outs := seq(|xs|, k requires 0 <= k < |xs| => f(xs[k]));
    CollectSuccess(outs);
    assert forall k :: 0 <= k < |xs| ==> outs[k] == f(xs[k]);
  }

  /** When every call that can fail fails with `e`, so does the whole map. */
  lemma CollectMapFailureError<A, B>(xs: seq<A>, f: A -> Result<B>, e: PyException)
    requires forall k :: 0 <= k < |xs| ==> f(xs[k]).Failure? ==> f(xs[k]).error == e
    ensures CollectMap(xs, f).Failure? ==> CollectMap(xs, f).error == e
  {
    var outs := seq(|xs|, k requires 0 <= k < |xs| => f(xs[k]));
    CollectFailureError(outs, e);
  }
}
