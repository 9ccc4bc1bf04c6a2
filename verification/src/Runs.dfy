/** Runs of state machines and the invariants they keep. */
module Runs {

  /** When one step keeps an invariant exactly if it does no harm, every state of a run satisfies the
      invariant exactly if no step of the run did harm. */
  lemma HoldsExactlyWithoutHarm<S(!new), M(!new)>(states: seq<S>, moves: seq<M>,
                                                  inv: S -> bool, harm: (S, M) -> bool)
    requires |states| == |moves| + 1 && inv(states[0])
    requires forall i :: 0 <= i < |moves| && inv(states[i]) ==> (inv(states[i + 1]) <==> !harm(states[i], moves[i]))
    ensures (forall n :: 0 <= n < |states| ==> inv(states[n])) <==>
            (forall i :: 0 <= i < |moves| ==> !harm(states[i], moves[i]))
  {
    if forall i :: 0 <= i < |moves| ==> !harm(states[i], moves[i]) {
      forall n | 0 <= n < |states|
        ensures inv(states[n])
      {
        HarmlessRun(states, moves, inv, harm, n);
      }
    } else {
      var i :| 0 <= i < |moves| && harm(states[i], moves[i]);
      assert !inv(states[i]) || !inv(states[i + 1]);
    }
  }

  lemma {:induction false} HarmlessRun<S(!new), M(!new)>(states: seq<S>, moves: seq<M>,
                                                         inv: S -> bool, harm: (S, M) -> bool, n: nat)
    requires |states| == |moves| + 1 && n < |states| && inv(states[0])
    requires forall i :: 0 <= i < |moves| && inv(states[i]) ==> (inv(states[i + 1]) <==> !harm(states[i], moves[i]))
    requires forall i :: 0 <= i < n ==> !harm(states[i], moves[i])
    ensures inv(states[n])
  {
    if n == 0 {
    } else {
      HarmlessRun(states, moves, inv, harm, n - 1);
      assert !harm(states[n - 1], moves[n - 1]);
      assert inv(states[n - 1 + 1]);
    }
  }
}
