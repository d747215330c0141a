/** Clock values along a run. */
module Clocks {

  predicate NeverBack(times: seq<int>) {
    forall i | 0 < i < |times| :: times[i - 1] <= times[i]
  }

  lemma {:induction false} Ordered(times: seq<int>, i: nat, k: nat)
    requires NeverBack(times) && i <= k < |times|
    ensures times[i] <= times[k]
    decreases k
  {
    if i == k {
    } else {
      Ordered(times, i, k - 1);
    }
  }

  /** A later clock value is at a later index. */
  lemma Earlier(times: seq<int>, a: nat, b: nat)
    requires NeverBack(times) && a < |times| && b < |times| && times[a] < times[b]
    ensures a < b
  {
    if b <= a { Ordered(times, b, a); }
  }
}
