/**
 * A relation with the one-step diamond property has at most one normal form per start, reached
 * in one number of steps. The cycle repair of folder placement is such a relation.
 */
module Rewriting {

  ghost predicate StepsAt<S(!new)>(step: (S, S) -> bool, run: seq<S>, i: nat) {
    i + 1 < |run| && step(run[i], run[i + 1])
  }

  /** Each state of the run steps to the next. */
  ghost predicate Run<S(!new)>(step: (S, S) -> bool, run: seq<S>) {
    && |run| > 0
    && forall i :: 0 <= i < |run| - 1 ==> StepsAt(step, run, i)
  }

  ghost predicate Normal<S(!new)>(step: (S, S) -> bool, s: S) {
    forall t :: !step(s, t)
  }

  ghost predicate Diamond<S(!new)>(step: (S, S) -> bool) {
    forall s, a, b :: step(s, a) && step(s, b) && a != b ==> exists c :: step(a, c) && step(b, c)
  }

  lemma RunTail<S(!new)>(step: (S, S) -> bool, run: seq<S>)
    requires Run(step, run) && |run| > 1
    ensures Run(step, run[1..])
  {
    forall i | 0 <= i < |run[1..]| - 1 ensures StepsAt(step, run[1..], i) {
      assert StepsAt(step, run, i + 1);
    }
  }

  lemma RunPrepend<S(!new)>(step: (S, S) -> bool, first: S, run: seq<S>) returns (longer: seq<S>)
    requires Run(step, run) && step(first, run[0])
    ensures Run(step, longer) && longer == [first] + run
  {
    longer := [first] + run;
    forall i | 0 <= i < |longer| - 1 ensures StepsAt(step, longer, i) {
      if i > 0 { assert StepsAt(step, run, i - 1); }
    }
  }

  lemma NormalRunIsDone<S(!new)>(step: (S, S) -> bool, run: seq<S>)
    requires Run(step, run) && Normal(step, run[0])
    ensures |run| == 1
  {
    assert |run| > 1 ==> StepsAt(step, run, 0);
  }

  /** Whatever the first step, the same normal form is still ahead, one step nearer. */
  lemma {:induction false} AnyFirstStep<S(!new)>(step: (S, S) -> bool, run: seq<S>, first: S) returns (rest: seq<S>)
    requires Diamond(step) && Run(step, run) && Normal(step, run[|run| - 1])
    requires step(run[0], first)
    ensures Run(step, rest) && |rest| == |run| - 1
    ensures rest[0] == first && rest[|rest| - 1] == run[|run| - 1]
  {
    var tail := run[1..];
    assert |run| > 1;
    assert StepsAt(step, run, 0);
    RunTail(step, run);
    if run[1] == first {
      rest := tail;
    } else {
      var c :| step(run[1], c) && step(first, c);
      var after := AnyFirstStep(step, tail, c);
      rest := RunPrepend(step, first, after);
    }
  }

  lemma {:induction false} NormalFormIsUnique<S(!new)>(step: (S, S) -> bool, left: seq<S>, right: seq<S>)
    requires Diamond(step) && Run(step, left) && Run(step, right) && left[0] == right[0]
    requires Normal(step, left[|left| - 1]) && Normal(step, right[|right| - 1])
    ensures |left| == |right| && left[|left| - 1] == right[|right| - 1]
    decreases |left|
  {
    if |left| == 1 {
      NormalRunIsDone(step, right);
    } else {
      var tail := left[1..];
      assert StepsAt(step, left, 0);
      RunTail(step, left);
      var rest := AnyFirstStep(step, right, left[1]);
      NormalFormIsUnique(step, tail, rest);
    }
  }

  lemma RunAppend<S(!new)>(step: (S, S) -> bool, run: seq<S>, last: S) returns (longer: seq<S>)
    requires Run(step, run) && step(run[|run| - 1], last)
    ensures Run(step, longer) && longer == run + [last]
  {
    longer := run + [last];
    forall i | 0 <= i < |longer| - 1 ensures StepsAt(step, longer, i) {
      if i + 1 < |run| { assert StepsAt(step, run, i); }
    }
  }

  /** What every step keeps holds at the end of every run. */
  lemma {:induction false} RunKeeps<S(!new)>(step: (S, S) -> bool, run: seq<S>, holds: S -> bool)
    requires Run(step, run) && holds(run[0])
    requires forall s, t :: holds(s) && step(s, t) ==> holds(t)
    ensures holds(run[|run| - 1])
  {
    if |run| > 1 {
      assert StepsAt(step, run, 0);
      RunTail(step, run);
      RunKeeps(step, run[1..], holds);
    }
  }
}
