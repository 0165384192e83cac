/** Scripts of the outside world: what its calls will return, one after the other. */
module Outcomes {

  /** The next call succeeds; a call after the last one fails. */
  predicate Next(results: seq<bool>) {
    results != [] && results[0]
  }

  /** What is left after one call. */
  function Rest<T>(results: seq<T>): seq<T> {
    if results == [] then [] else results[1..]
  }
}
