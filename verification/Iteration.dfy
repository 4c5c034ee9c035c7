/** Running a step function, and collecting what its steps put out. */
module Iteration {

  function Iterate<S>(step: S -> S, s: S, n: nat): S {
    if n == 0 then s else step(Iterate(step, s, n - 1))
  }

  function Outputs<S, T>(step: S -> S, out: S -> seq<T>, s: S, n: nat): seq<T> {
    if n == 0 then [] else Outputs(step, out, s, n - 1) + out(Iterate(step, s, n - 1))
  }

  lemma {:induction false} IterateSum<S>(step: S -> S, s: S, m: nat, n: nat)
    ensures Iterate(step, Iterate(step, s, m), n) == Iterate(step, s, m + n)
  {
    if n > 0 {
      IterateSum(step, s, m, n - 1);
    }
  }

  lemma IterateFirst<S>(step: S -> S, s: S, n: nat)
    ensures Iterate(step, step(s), n) == Iterate(step, s, n + 1)
  {
    assert Iterate(step, s, 1) == step(Iterate(step, s, 0));
    IterateSum(step, s, 1, n);
  }

  lemma {:induction false} OutputsSum<S, T>(step: S -> S, out: S -> seq<T>, s: S, m: nat, n: nat)
    ensures Outputs(step, out, s, m + n) == Outputs(step, out, s, m) + Outputs(step, out, Iterate(step, s, m), n)
  {
    if n > 0 {
      OutputsSum(step, out, s, m, n - 1);
      IterateSum(step, s, m, n - 1);
      assert m + n - 1 == m + (n - 1);
    }
  }

  /** A state that steps to itself and puts out nothing is where the run stays. */
  lemma {:induction false} FixedPoint<S, T>(step: S -> S, out: S -> seq<T>, s: S, m: nat, n: nat)
    requires m <= n
    requires step(Iterate(step, s, m)) == Iterate(step, s, m) && out(Iterate(step, s, m)) == []
    ensures Iterate(step, s, n) == Iterate(step, s, m)
    ensures Outputs(step, out, s, n) == Outputs(step, out, s, m)
  {
    if m < n {
      FixedPoint(step, out, s, m, n - 1);
    }
  }
}
