/** Runs of a state machine: a state that every step keeps good is good all along a run. */
module Runs {

  ghost predicate IsRun<S(!new), E(!new)>(tr: seq<S>, es: seq<E>, next: (S, E, S) -> bool) {
    |tr| == |es| + 1 && forall i :: 0 <= i < |es| ==> next(tr[i], es[i], tr[i + 1])
  }

  ghost predicate Inductive<S(!new), E(!new)>(next: (S, E, S) -> bool, inv: S -> bool) {
    forall s, e, s' :: inv(s) && next(s, e, s') ==> inv(s')
  }

  lemma {:induction false} InvariantHolds<S(!new), E(!new)>(tr: seq<S>, es: seq<E>, next: (S, E, S) -> bool,
                                                           inv: S -> bool, k: nat)
    requires IsRun(tr, es, next) && Inductive(next, inv) && inv(tr[0]) && k < |tr|
    ensures inv(tr[k])
    decreases k
  {
    if k > 0 {
      InvariantHolds(tr, es, next, inv, k - 1);
      assert next(tr[k - 1], es[k - 1], tr[k - 1 + 1]);
    }
  }
}
