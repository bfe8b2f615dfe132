/** Feeding a sequence to a step function that may fail. */
module Folds {
  import opened Wrappers

  /** Feed the elements to `step` one by one; None once a step fails. */
  function Fold<S, T>(step: (S, T) -> Option<S>, s: S, xs: seq<T>): Option<S>
    decreases |xs|
  {
    if xs == [] then Some(s)
    else
      var s' := step(s, xs[0]);
      if s'.None? then None else Fold(step, s'.value, xs[1..])
  }

  lemma {:induction false} FoldAppend<S, T>(step: (S, T) -> Option<S>, s: S, a: seq<T>, b: seq<T>)
    ensures Fold(step, s, a + b) ==
            if Fold(step, s, a).None? then None else Fold(step, Fold(step, s, a).value, b)
    decreases |a|
  {
    if a == [] {
      assert a + b == b;
    } else {
      assert (a + b)[0] == a[0] && (a + b)[1..] == a[1..] + b;
      if step(s, a[0]).Some? {
        FoldAppend(step, step(s, a[0]).value, a[1..], b);
      }
    }
  }

  lemma FoldOne<S, T>(step: (S, T) -> Option<S>, s: S, x: T)
    ensures Fold(step, s, [x]) == step(s, x)
  {
    assert [x][1..] == [];
  }

  lemma FoldPrefix<S, T>(step: (S, T) -> Option<S>, s: S, xs: seq<T>, i: nat)
    requires i < |xs| && Fold(step, s, xs[..i]).Some?
    ensures Fold(step, s, xs[..i + 1]) == step(Fold(step, s, xs[..i]).value, xs[i])
  {
    assert xs[..i + 1] == xs[..i] + [xs[i]];
    FoldAppend(step, s, xs[..i], [xs[i]]);
    FoldOne(step, Fold(step, s, xs[..i]).value, xs[i]);
  }

  lemma FoldFails<S, T>(step: (S, T) -> Option<S>, s: S, xs: seq<T>, i: nat)
    requires i <= |xs| && Fold(step, s, xs[..i]).None?
    ensures Fold(step, s, xs).None?
  {
    assert xs == xs[..i] + xs[i..];
    FoldAppend(step, s, xs[..i], xs[i..]);
  }
}
