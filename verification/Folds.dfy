/** A run as a fold: the state after a sequence of events, and what each event put out on the way. */
module Folds {

  function Fold<S, E>(next: (S, E) -> S, s: S, es: seq<E>): S {
    if es == [] then s else next(Fold(next, s, es[..|es| - 1]), es[|es| - 1])
  }

  function Outputs<S, E, O>(next: (S, E) -> S, out: (S, E) -> O, s: S, es: seq<E>): (r: seq<O>)
    ensures |r| == |es|
  {
    if es == [] then []
    else
      var front, last := es[..|es| - 1], es[|es| - 1];
      Outputs(next, out, s, front) + [out(Fold(next, s, front), last)]
  }

  lemma FoldOneMore<S, E>(next: (S, E) -> S, s: S, es: seq<E>, i: nat)
    requires i < |es|
    ensures Fold(next, s, es[..i + 1]) == next(Fold(next, s, es[..i]), es[i])
  {
    assert es[..i + 1][..i] == es[..i];
  }

  lemma OneMore<S, E, O>(next: (S, E) -> S, out: (S, E) -> O, s: S, es: seq<E>, i: nat)
    requires i < |es|
    ensures var before := Fold(next, s, es[..i]);
            && Fold(next, s, es[..i + 1]) == next(before, es[i])
            && Outputs(next, out, s, es[..i + 1]) == Outputs(next, out, s, es[..i]) + [out(before, es[i])]
  {
    assert es[..i + 1][..i] == es[..i];
  }

  lemma {:induction false} FoldConcat<S, E>(next: (S, E) -> S, s: S, a: seq<E>, b: seq<E>)
    ensures Fold(next, Fold(next, s, a), b) == Fold(next, s, a + b)
  {
    if b == [] {
      assert a + b == a;
    } else {
      FoldConcat(next, s, a, b[..|b| - 1]);
      assert (a + b)[..|a + b| - 1] == a + b[..|b| - 1];
    }
  }

  lemma {:induction false} OutputAt<S, E, O>(next: (S, E) -> S, out: (S, E) -> O, s: S, es: seq<E>, i: nat)
    requires i < |es|
    ensures Outputs(next, out, s, es)[i] == out(Fold(next, s, es[..i]), es[i])
  {
    var n := |es| - 1;
    if i < n {
      OutputAt(next, out, s, es[..n], i);
      assert es[..n][..i] == es[..i];
    }
  }

  /** What every event of a kind keeps, a sequence of such events keeps. */
  lemma {:induction false} FoldKeeps<S(!new), E(!new)>(next: (S, E) -> S, s: S, es: seq<E>, inv: S -> bool,
                                                       kind: E -> bool)
    requires inv(s) && forall i :: 0 <= i < |es| ==> kind(es[i])
    requires forall t, e :: inv(t) && kind(e) ==> inv(next(t, e))
    ensures inv(Fold(next, s, es))
  {
    if es != [] {
      FoldKeeps(next, s, es[..|es| - 1], inv, kind);
    }
  }
}
