/** Runs of deterministic machines, and simulation of one machine's runs by another's. */
module Runs {
  function Iterate<S>(step: S -> S, s: S, n: nat): S
    decreases n
  {
    if n == 0 then s else Iterate(step, step(s), n - 1)
  }

  lemma {:induction false} IterateAdd<S>(step: S -> S, s: S, n: nat, k: nat)
    ensures Iterate(step, s, n + k) == Iterate(step, Iterate(step, s, n), k)
    decreases n
  {
    if n > 0 {
      IterateAdd(step, step(s), n - 1, k);
    }
  }

  lemma IterateJoin<S>(step: S -> S, s: S, n: nat, t: S, k: nat, u: S)
    requires Iterate(step, s, n) == t && Iterate(step, t, k) == u
    ensures Iterate(step, s, n + k) == u
  {
    IterateAdd(step, s, n, k);
  }

  /** The first n states of the run satisfy ok. */
  ghost predicate Always<S>(step: S -> S, ok: S -> bool, s: S, n: nat)
    decreases n
  {
    n == 0 || (ok(s) && Always(step, ok, step(s), n - 1))
  }

  /** One or more steps on the right lead from t to a state related to s. */
  ghost predicate Reaches<S, T>(cstep: T -> T, rel: (S, T) -> bool, s: S, t: T) {
    exists k: nat :: k >= 1 && rel(s, Iterate(cstep, t, k))
  }

  /** Related states are led to related states by one step on the left and some on the right. */
  ghost predicate Simulates<S(!new), T(!new)>(step: S -> S, ok: S -> bool, cstep: T -> T, rel: (S, T) -> bool) {
    forall s: S, t: T {:trigger rel(s, t), ok(s)} :: rel(s, t) && ok(s) ==> Reaches(cstep, rel, step(s), t)
  }

  /** Then every run on the left, however long, is followed on the right by one at least as long. */
  lemma {:induction false} RunFollowed<S(!new), T(!new)>(step: S -> S, ok: S -> bool, cstep: T -> T, rel: (S,
      T) -> bool, s: S, t: T, n: nat)
    returns (k: nat)
    requires Simulates(step, ok, cstep, rel) && rel(s, t) && Always(step, ok, s, n)
    ensures k >= n && rel(Iterate(step, s, n), Iterate(cstep, t, k))
    decreases n
  {
    if n == 0 {
      k := 0;
    } else {
      assert Reaches(cstep, rel, step(s), t);
      var first: nat :| first >= 1 && rel(step(s), Iterate(cstep, t, first));
      var rest := RunFollowed(step, ok, cstep, rel, step(s), Iterate(cstep, t, first), n - 1);
      IterateAdd(cstep, t, first, rest);
      k := first + rest;
    }
  }
}
