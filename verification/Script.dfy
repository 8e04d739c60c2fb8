/** Performing a list of steps one after the other; a crash performs a prefix of the list. */
module Script {

  /** The state after all of `steps`. */
  function Perform<S, E>(step: (S, E) -> S, s: S, steps: seq<E>): S {
    if steps == [] then s else step(Perform(step, s, steps[..|steps| - 1]), steps[|steps| - 1])
  }

  lemma PerformNone<S, E>(step: (S, E) -> S, s: S)
    ensures Perform(step, s, []) == s
  {
  }

  lemma PerformOne<S, E>(step: (S, E) -> S, s: S, steps: seq<E>, e: E)
    ensures Perform(step, s, steps + [e]) == step(Perform(step, s, steps), e)
  {
    assert (steps + [e])[..|steps|] == steps;
  }

  lemma {:induction false} PerformConcat<S, E>(step: (S, E) -> S, s: S, a: seq<E>, b: seq<E>)
    ensures Perform(step, s, a + b) == Perform(step, Perform(step, s, a), b)
    decreases |b|
  {
    if b == [] {
      assert a + b == a;
    } else {
      var k := |b| - 1;
      assert a + b == (a + b[..k]) + [b[k]];
      PerformOne(step, s, a + b[..k], b[k]);
      PerformConcat(step, s, a, b[..k]);
    }
  }

  /** A prefix of a concatenation ends either in its first or in its second part. */
  lemma PerformPrefix<S, E>(step: (S, E) -> S, s: S, a: seq<E>, b: seq<E>, n: nat)
    requires n <= |a + b|
    ensures n <= |a| ==> Perform(step, s, (a + b)[..n]) == Perform(step, s, a[..n])
    ensures n >= |a| ==> Perform(step, s, (a + b)[..n]) == Perform(step, Perform(step, s, a), b[..n - |a|])
  {
    if n <= |a| {
      assert (a + b)[..n] == a[..n];
    }
    if n >= |a| {
      assert (a + b)[..n] == a + b[..n - |a|];
      PerformConcat(step, s, a, b[..n - |a|]);
    }
  }
}
