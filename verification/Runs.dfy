/** Runs of a state machine: the state reached after a sequence of events. */
module Runs {
  function Fold<S, E>(step: (S, E) -> S, s: S, evs: seq<E>): S {
    if evs == [] then s else step(Fold(step, s, evs[..|evs| - 1]), evs[|evs| - 1])
  }

  lemma FoldSnoc<S, E>(step: (S, E) -> S, s: S, evs: seq<E>, ev: E)
    ensures Fold(step, s, evs + [ev]) == step(Fold(step, s, evs), ev)
  {
    assert (evs + [ev])[..|evs|] == evs;
  }

  lemma {:induction false} FoldConcat<S, E>(step: (S, E) -> S, s: S, before: seq<E>, after: seq<E>)
    ensures Fold(step, s, before + after) == Fold(step, Fold(step, s, before), after)
  {
    if after == [] {
      assert before + after == before;
    } else {
      var most, last := after[..|after| - 1], after[|after| - 1];
      FoldConcat(step, s, before, most);
      assert before + after == (before + most) + [last];
      FoldSnoc(step, s, before + most, last);
    }
  }

  lemma Fold4<S, E>(step: (S, E) -> S, s: S, a: E, b: E, c: E, d: E)
    ensures Fold(step, s, [a, b, c, d]) == step(step(step(step(s, a), b), c), d)
  {
    assert [a, b, c, d][..3] == [a, b, c] && [a, b, c][..2] == [a, b] && [a, b][..1] == [a] && [a][..0] == [];
    assert Fold(step, s, [a]) == step(s, a);
    assert Fold(step, s, [a, b]) == step(step(s, a), b);
  }

  lemma Fold2<S, E>(step: (S, E) -> S, s: S, a: E, b: E)
    ensures Fold(step, s, [a, b]) == step(step(s, a), b)
  {
    assert [a, b][..1] == [a] && [a][..0] == [];
    assert Fold(step, s, [a]) == step(s, a);
  }
}
