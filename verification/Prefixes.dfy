/** Runs of actions, judged prefix by prefix. */
module Prefixes {

  /** A run that fails on a prefix fails as a whole, when one more action never mends a failure. */
  lemma {:induction false} FailureIsFinal<A>(failed: seq<A> -> bool, actions: seq<A>, n: nat)
    requires n <= |actions| && failed(actions[..n])
    requires forall s: seq<A>, a: A :: failed(s) ==> failed(s + [a])
    ensures failed(actions)
    decreases |actions| - n
  {
    if n == |actions| {
      assert actions[..n] == actions;
    } else {
      assert actions[..n + 1] == actions[..n] + [actions[n]];
      FailureIsFinal(failed, actions, n + 1);
    }
  }
}
