/** Optional values and the outcome of a call that may raise. */
module Outcomes {

  /** Python's `None` or a value. */
  datatype Option<+T> = None | Some(value: T)

  /** The exceptions the modelled functions can raise. */
  datatype Error =
    | EmptyEndpoint                              // `assert endpoint is not None and len(endpoint) > 0` failed
    | NoResponse(endpoint: string)               // "Response object is None"
    | BadStatus(endpoint: string, status: int)   // TempoResponseException: status outside [200, 300)
    | InvalidJson(endpoint: string)              // the body of a 2xx response is not JSON
    | MissingKey(key: string)                    // KeyError on a record field that may be absent
    | UnexpectedKeyword(keyword: string)         // TypeError: a keyword argument the callee does not declare
    | RepliesExhausted                           // the replies given to the model ran out while the code would
                                                 // still send a request (it does not finish within them)

  /** What a call does: return a value, or raise. */
  datatype Outcome<+T> = Done(value: T) | Raised(error: Error)

  /** A call that returned a value other than None. */
  predicate Fetched<T>(o: Outcome<Option<T>>) {
    o.Done? && o.value.Some?
  }

  /**
   * What a caller that stops at a call not returning a value gives back:
   * the call's exception, or None.
   */
  function Unfetched<T, X>(o: Outcome<Option<T>>): Outcome<Option<X>> {
    match o
    case Raised(e) => Raised(e)
    case Done(_) => Done(None)
  }

  /**
   * A loop that computes `f(i, xs[i])` for each element in turn and stops at
   * the first exception: the list of results, or that exception.
   */
  function AllDone<A, X>(xs: seq<A>, f: (nat, A) -> Outcome<X>): Outcome<seq<X>> {
    if xs == [] then Done([])
    else
      var n := |xs| - 1;
      match AllDone(xs[..n], f)
      case Raised(e) => Raised(e)
      case Done(done) =>
        match f(n, xs[n])
        case Raised(e) => Raised(e)
        case Done(x) => Done(done + [x])
  }

  /** The loop finishes exactly when every step does, with one result per element, in order. */
  lemma {:induction false} AllDoneIff<A, X>(xs: seq<A>, f: (nat, A) -> Outcome<X>, results: seq<X>)
    ensures AllDone(xs, f) == Done(results) <==>
      |results| == |xs| && forall i :: 0 <= i < |xs| ==> f(i, xs[i]) == Done(results[i])
    decreases |xs|
  {
    if xs != [] {
      var n := |xs| - 1;
      var init := xs[..n];
      if |results| == |xs| {
        var initResults := results[..n];
        AllDoneIff(init, f, initResults);
        assert results == initResults + [results[n]];
        match AllDone(init, f)
        case Raised(e) =>
          assert exists i :: 0 <= i < n && f(i, init[i]) != Done(initResults[i]);
        case Done(done) =>
          match f(n, xs[n])
          case Raised(e) =>
          case Done(x) =>
            if done + [x] == results {
              assert (done + [x])[..n] == done;
            }
      } else if AllDone(xs, f).Done? {
        AllDoneIff(init, f, AllDone(init, f).value);
      }
    }
  }

  /** One more step: its exception, or its result appended. */
  lemma AllDoneStep<A, X>(xs: seq<A>, f: (nat, A) -> Outcome<X>, i: nat, done: seq<X>)
    requires i < |xs| && AllDone(xs[..i], f) == Done(done)
    ensures AllDone(xs[..i + 1], f) ==
      match f(i, xs[i])
      case Raised(e) => Raised(e)
      case Done(x) => Done(done + [x])
  {
    assert xs[..i + 1][..i] == xs[..i];
  }

  /** An exception in the first j steps is the exception of the whole loop. */
  lemma {:induction false} AllDoneRaised<A, X>(xs: seq<A>, f: (nat, A) -> Outcome<X>, j: nat)
    requires j <= |xs| && AllDone(xs[..j], f).Raised?
    ensures AllDone(xs, f) == AllDone(xs[..j], f)
    decreases |xs| - j
  {
    if j == |xs| {
      assert xs[..j] == xs;
    } else {
      assert xs[..j + 1][..j] == xs[..j];
      AllDoneRaised(xs, f, j + 1);
    }
  }
}
