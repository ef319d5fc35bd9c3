/** Runs of a state machine: a list of inputs with the state and the reply after each. */
module Runs {
  datatype Entry<S, R> = Entry(after: S, reply: R)

  function Before<S, R>(start: S, log: seq<Entry<S, R>>, i: nat): S
    requires i <= |log|
  {
    if i == 0 then start else log[i - 1].after
  }

  ghost predicate StepAt<S, C, R>(step: (S, C, S, R) -> bool, start: S, inputs: seq<C>, log: seq<Entry<S, R>>, i: nat)
    requires i < |inputs| && i < |log|
  {
    step(Before(start, log, i), inputs[i], log[i].after, log[i].reply)
  }

  ghost predicate History<S, C, R>(step: (S, C, S, R) -> bool, start: S, inputs: seq<C>, log: seq<Entry<S, R>>) {
    && |log| == |inputs|
    && forall i: nat :: i < |log| ==> StepAt(step, start, inputs, log, i)
  }

  lemma HistoryGrows<S, C, R>(
    step: (S, C, S, R) -> bool, start: S, inputs: seq<C>, log: seq<Entry<S, R>>, input: C, after: S, reply: R)
    requires History(step, start, inputs, log) && step(Before(start, log, |log|), input, after, reply)
    ensures History(step, start, inputs + [input], log + [Entry(after, reply)])
    ensures Before(start, log + [Entry(after, reply)], |log| + 1) == after
  {
    var longer := log + [Entry(after, reply)];
    forall i: nat | i < |longer|
      ensures StepAt(step, start, inputs + [input], longer, i)
    {
      assert Before(start, longer, i) == Before(start, log, i);
      if i < |log| {
        assert StepAt(step, start, inputs, log, i);
      }
    }
  }

  lemma {:induction false} InvariantHolds<S, R>(inv: S -> bool, start: S, log: seq<Entry<S, R>>, k: nat)
    requires inv(start) && k <= |log|
    requires forall i: nat :: i < |log| && inv(Before(start, log, i)) ==> inv(log[i].after)
    ensures inv(Before(start, log, k))
  {
    if k > 0 {
      InvariantHolds(inv, start, log, k - 1);
    }
  }
}
