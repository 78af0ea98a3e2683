/** Runs of a step machine: a step function, the actions taken, and the condition each action had to meet. */
module Runs {
  function Run<S, A>(step: (S, A) -> S, s: S, acts: seq<A>): S {
    if acts == [] then s else step(Run(step, s, acts[..|acts| - 1]), acts[|acts| - 1])
  }

  /** Every action met `ok` in the state it was taken in. */
  predicate Allowed<S, A>(step: (S, A) -> S, ok: (S, A) -> bool, s: S, acts: seq<A>) {
    acts != [] ==>
      var m := |acts| - 1;
      Allowed(step, ok, s, acts[..m]) && ok(Run(step, s, acts[..m]), acts[m])
  }

  lemma {:induction false} Concat<S, A>(step: (S, A) -> S, ok: (S, A) -> bool, s: S, xs: seq<A>, ys: seq<A>)
    ensures Run(step, s, xs + ys) == Run(step, Run(step, s, xs), ys)
    ensures Allowed(step, ok, s, xs) && Allowed(step, ok, Run(step, s, xs), ys) ==> Allowed(step, ok, s, xs + ys)
  {
    if ys == [] {
      assert xs + ys == xs;
    } else {
      var m := |ys| - 1;
      Concat(step, ok, s, xs, ys[..m]);
      assert (xs + ys)[..|xs + ys| - 1] == xs + ys[..m];
    }
  }

  lemma One<S, A>(step: (S, A) -> S, ok: (S, A) -> bool, s: S, a: A)
    ensures Run(step, s, [a]) == step(s, a)
    ensures Allowed(step, ok, s, [a]) <==> ok(s, a)
  {
    assert [a][..0] == [];
  }

  /** An invariant of every allowed step holds after every allowed run. */
  lemma {:induction false} Invariant<S(!new), A(!new)>(
    step: (S, A) -> S, ok: (S, A) -> bool, inv: S -> bool, s: S, acts: seq<A>)
    requires inv(s) && Allowed(step, ok, s, acts)
    requires forall x, a :: inv(x) && ok(x, a) ==> inv(step(x, a))
    ensures inv(Run(step, s, acts))
  {
    if acts != [] {
      var m := |acts| - 1;
      Invariant(step, ok, inv, s, acts[..m]);
    }
  }
}
