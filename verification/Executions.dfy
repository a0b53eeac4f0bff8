// Executions of a transition system, and how facts about single steps become
// facts about every state of every execution.
module Executions {
  ghost predicate StepsAt<S(!new)>(next: (S, S) -> bool, states: seq<S>, i: nat)
    requires i + 1 < |states|
  {
    next(states[i], states[i + 1])
  }

  // A finite execution: it starts in an initial state and takes one step at a time.
  ghost predicate Execution<S(!new)>(init: S -> bool, next: (S, S) -> bool, states: seq<S>) {
    && states != []
    && init(states[0])
    && forall i :: 0 <= i < |states| - 1 ==> StepsAt(next, states, i)
  }

  // An inductive invariant holds in every state.
  lemma {:induction false} Invariance<S(!new)>(
      init: S -> bool, next: (S, S) -> bool, inv: S -> bool, states: seq<S>)
    requires Execution(init, next, states)
    requires forall s :: init(s) ==> inv(s)
    requires forall s, s' :: inv(s) && next(s, s') ==> inv(s')
    ensures forall i :: 0 <= i < |states| ==> inv(states[i])
  {
    for i := 1 to |states|
      invariant forall j :: 0 <= j < i ==> inv(states[j])
    {
      assert StepsAt(next, states, i - 1);
    }
  }

  // A reflexive and transitive relation kept by every step relates every state
  // to every later one.
  lemma {:induction false} Monotony<S(!new)>(
      init: S -> bool, next: (S, S) -> bool, inv: S -> bool, rel: (S, S) -> bool, states: seq<S>, i: nat, j: nat)
    requires Execution(init, next, states) && i <= j < |states|
    requires forall k :: 0 <= k < |states| ==> inv(states[k])
    requires forall s :: rel(s, s)
    requires forall s, t, u :: rel(s, t) && rel(t, u) ==> rel(s, u)
    requires forall s, s' :: inv(s) && next(s, s') ==> rel(s, s')
    ensures rel(states[i], states[j])
    decreases j
  {
    if i < j {
      Monotony(init, next, inv, rel, states, i, j - 1);
      assert StepsAt(next, states, j - 1);
      assert rel(states[j - 1], states[j]);
    }
  }

  // An execution can go on with any step from its last state.
  lemma Extension<S(!new)>(init: S -> bool, next: (S, S) -> bool, states: seq<S>, s: S)
    requires Execution(init, next, states) && next(states[|states| - 1], s)
    ensures Execution(init, next, states + [s])
  {
    forall i | 0 <= i < |states| ensures StepsAt(next, states + [s], i) {
      if i < |states| - 1 {
        assert StepsAt(next, states, i);
      }
    }
  }
}
