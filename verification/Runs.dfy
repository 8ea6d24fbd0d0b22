/** Runs of a transition system whose steps are given by a partial function. */
module Runs {
  import opened Text

  // The state after a run, or None when one of its steps is not enabled.
  function Exec<S, A>(apply: (S, A) -> Option<S>, s: S, run: seq<A>): Option<S>
    decreases |run|
  {
    if run == [] then Some(s)
    else if apply(s, run[0]).None? then None
    else Exec(apply, apply(s, run[0]).value, run[1..])
  }

  lemma {:induction false} ExecAppend<S, A>(apply: (S, A) -> Option<S>, s: S, run: seq<A>, more: seq<A>)
    requires Exec(apply, s, run).Some?
    ensures Exec(apply, s, run + more) == Exec(apply, Exec(apply, s, run).value, more)
    decreases |run|
  {
    if run == [] {
      assert run + more == more;
    } else {
      assert (run + more)[1..] == run[1..] + more;
      ExecAppend(apply, apply(s, run[0]).value, run[1..], more);
    }
  }

  // One more step.
  lemma ExecSnoc<S, A>(apply: (S, A) -> Option<S>, init: S, run: seq<A>, s: S, step: A)
    requires Exec(apply, init, run) == Some(s) && apply(s, step).Some?
    ensures Exec(apply, init, run + [step]) == apply(s, step)
  {
    ExecAppend(apply, init, run, [step]);
    assert [step][1..] == [];
  }

  // The last step of a run that is enabled.
  lemma {:induction false} ExecLast<S, A>(apply: (S, A) -> Option<S>, init: S, run: seq<A>)
    requires run != [] && Exec(apply, init, run).Some?
    ensures var before := Exec(apply, init, run[..|run| - 1]);
            before.Some? && apply(before.value, run[|run| - 1]) == Exec(apply, init, run)
    decreases |run|
  {
    var n := |run| - 1;
    if n == 0 {
      assert run[1..] == [];
    } else {
      assert run[1..][..n - 1] == run[1..n] == run[..n][1..];
      ExecLast(apply, apply(init, run[0]).value, run[1..]);
    }
  }
}
