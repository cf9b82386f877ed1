/** Sequence helpers shared by the backtester and the zone detector. */
module Sequences {
  /** Every price of the series is positive. */
  predicate AllPositive(closes: seq<real>)
  {
    forall i :: 0 <= i < |closes| ==> closes[i] > 0.0
  }

  /** The last element, Python's `s[-1]`. */
  function Last<T>(s: seq<T>): T
    requires |s| > 0
  {
    s[|s| - 1]
  }

  /** All elements but the last. */
  function AllButLast<T>(s: seq<T>): seq<T>
    requires |s| > 0
  {
    s[..|s| - 1]
  }
}
