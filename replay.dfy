/** Sequential application of evolvements with early exit on the first error: the meaning
    shared by `batch_evolve` (traits/src/client.rs), the transcript's batch evolve and
    `apply_log` (eid_mls/src/state). */
module Replay {
  import opened Types

  /** Apply `es` in list order with `step`; the first failure is returned together with the
      state that failing step left, and nothing after it is applied. */
  function Run<S, E>(step: (S, E) -> Step<S>, s: S, es: seq<E>): (r: Step<S>)
    ensures es == [] ==> r == Step(s, Pass)
    ensures es != [] && step(s, es[0]).outcome.Fail? ==> r == step(s, es[0])
    ensures r.outcome.Fail? ==> es != []
    decreases |es|
  {
    if es == [] then Step(s, Pass)
    else
      var first := step(s, es[0]);
      if first.outcome.Fail? then first else Run(step, first.state, es[1..])
  }

  /** How many evolvements `Run` applies successfully before it stops. */
  function Accepted<S, E>(step: (S, E) -> Step<S>, s: S, es: seq<E>): (n: nat)
    ensures n <= |es|
    ensures n == |es| <==> Run(step, s, es).outcome.Pass?
    decreases |es|
  {
    if es == [] then 0
    else
      var first := step(s, es[0]);
      if first.outcome.Fail? then 0 else 1 + Accepted(step, first.state, es[1..])
  }

  /** A step that fails leaves the state as it found it. */
  ghost predicate FailureAtomic<S(!new), E(!new)>(step: (S, E) -> Step<S>)
  {
    forall s, e :: step(s, e).outcome.Fail? ==> step(s, e).state == s
  }

  /** Running `xs ++ ys` is running `xs`, then, if that succeeded, running `ys` from where
      `xs` left off; a failure in `xs` ends the run there. */
  lemma {:induction false} RunAppend<S, E>(step: (S, E) -> Step<S>, s: S, xs: seq<E>, ys: seq<E>)
    ensures Run(step, s, xs + ys)
         == if Run(step, s, xs).outcome.Fail? then Run(step, s, xs)
            else Run(step, Run(step, s, xs).state, ys)
    decreases |xs|
  {
    if xs == [] {
      assert xs + ys == ys;
    } else {
      assert (xs + ys)[0] == xs[0];
      assert (xs + ys)[1..] == xs[1..] + ys;
      var first := step(s, xs[0]);
      if first.outcome.Pass? {
        RunAppend(step, first.state, xs[1..], ys);
      }
    }
  }

  /** Running one more evolvement after a successful prefix. */
  lemma RunSnoc<S, E>(step: (S, E) -> Step<S>, s: S, es: seq<E>, i: nat)
    requires i < |es|
    requires Run(step, s, es[..i]).outcome.Pass?
    ensures Run(step, s, es[..i + 1]) == step(Run(step, s, es[..i]).state, es[i])
  {
    assert es[..i + 1] == es[..i] + [es[i]];
    RunAppend(step, s, es[..i], [es[i]]);
    assert [es[i]][1..] == [];
  }

  /** If the prefix before position `k` succeeds and the evolvement at `k` fails, the whole
      run returns exactly that failure: later evolvements are not applied and the earlier
      ones stay applied. */
  lemma RunStopsAt<S, E>(step: (S, E) -> Step<S>, s: S, es: seq<E>, k: nat)
    requires k < |es|
    requires Run(step, s, es[..k]).outcome.Pass?
    requires step(Run(step, s, es[..k]).state, es[k]).outcome.Fail?
    ensures Run(step, s, es) == step(Run(step, s, es[..k]).state, es[k])
    ensures Accepted(step, s, es) == k
  {
    assert es == es[..k + 1] + es[k + 1..];
    RunSnoc(step, s, es, k);
    RunAppend(step, s, es[..k + 1], es[k + 1..]);
    AcceptedStopsAt(step, s, es, k);
  }

  lemma {:induction false} AcceptedStopsAt<S, E>(step: (S, E) -> Step<S>, s: S, es: seq<E>, k: nat)
    requires k < |es|
    requires Run(step, s, es[..k]).outcome.Pass?
    requires step(Run(step, s, es[..k]).state, es[k]).outcome.Fail?
    ensures Accepted(step, s, es) == k
    decreases k
  {
    if k > 0 {
      var first := step(s, es[0]);
      assert es[..k][0] == es[0];
      assert es[..k][1..] == es[1..][..k - 1];
      AcceptedStopsAt(step, first.state, es[1..], k - 1);
    }
  }

  /** Conversely, a failing run fails at its first failing evolvement: position
      `Accepted(...)`, after every earlier one succeeded. When steps are failure-atomic,
      the state it leaves is the one the successful prefix produced. */
  lemma {:induction false} RunFailsAtAccepted<S(!new), E(!new)>(step: (S, E) -> Step<S>, s: S, es: seq<E>)
    requires Run(step, s, es).outcome.Fail?
    ensures Accepted(step, s, es) < |es|
    ensures Run(step, s, es[..Accepted(step, s, es)]).outcome.Pass?
    ensures Run(step, s, es)
         == step(Run(step, s, es[..Accepted(step, s, es)]).state, es[Accepted(step, s, es)])
    ensures FailureAtomic(step)
        ==> Run(step, s, es).state == Run(step, s, es[..Accepted(step, s, es)]).state
    decreases |es|
  {
    var first := step(s, es[0]);
    var n := Accepted(step, s, es);
    if first.outcome.Fail? {
      assert n == 0 && es[..0] == [];
    } else {
      RunFailsAtAccepted(step, first.state, es[1..]);
      var m := Accepted(step, first.state, es[1..]);
      assert n == m + 1;
      assert es[..n] == [es[0]] + es[1..][..m];
      RunAppend(step, s, [es[0]], es[1..][..m]);
      assert [es[0]][1..] == [];
    }
  }
}
