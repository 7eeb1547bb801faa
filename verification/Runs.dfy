/** Runs of a state machine whose every step may put something out. */
module Runs {

  /** The last state and everything put out, in order. */
  function Run<S, E, O>(step: (S, E) -> (S, seq<O>), s: S, es: seq<E>): (S, seq<O>) {
    if es == [] then (s, []) else
      var (mid, before) := Run(step, s, es[..|es| - 1]);
      var (last, out) := step(mid, es[|es| - 1]);
      (last, before + out)
  }

  lemma {:induction false} RunAppend<S, E, O>(step: (S, E) -> (S, seq<O>), s: S, es: seq<E>, fs: seq<E>)
    ensures var (mid, before) := Run(step, s, es);
            var (last, out) := Run(step, mid, fs);
            Run(step, s, es + fs) == (last, before + out)
  {
    if fs == [] {
      assert es + fs == es;
      assert Run(step, s, es).1 + [] == Run(step, s, es).1;
    } else {
      var gs := fs[..|fs| - 1];
      RunAppend(step, s, es, gs);
      assert (es + fs)[..|es + fs| - 1] == es + gs;
      var (mid, before) := Run(step, s, es);
      var (late, between) := Run(step, mid, gs);
      var after := step(late, fs[|fs| - 1]).1;
      assert (before + between) + after == before + (between + after);
    }
  }

  lemma RunOne<S, E, O>(step: (S, E) -> (S, seq<O>), s: S, e: E)
    ensures Run(step, s, [e]) == step(s, e)
  {
    assert Run(step, s, [e][..0]) == (s, []);
    assert [] + step(s, e).1 == step(s, e).1;
  }

  lemma RunTwo<S, E, O>(step: (S, E) -> (S, seq<O>), s: S, e: E, f: E)
    ensures var (mid, before) := step(s, e);
            var (last, out) := step(mid, f);
            Run(step, s, [e, f]) == (last, before + out)
  {
    RunOne(step, s, e);
    RunOne(step, step(s, e).0, f);
    RunAppend(step, s, [e], [f]);
    assert [e] + [f] == [e, f];
  }

  lemma RunSnoc<S, E, O>(step: (S, E) -> (S, seq<O>), s: S, es: seq<E>, e: E)
    ensures var (mid, before) := Run(step, s, es);
            Run(step, s, es + [e]) == (step(mid, e).0, before + step(mid, e).1)
  {
    assert (es + [e])[..|es|] == es;
  }

  /** A shorter run puts out a prefix of what a longer one does. */
  lemma RunPrefix<S, E, O>(step: (S, E) -> (S, seq<O>), s: S, es: seq<E>, n: nat)
    requires n <= |es|
    ensures Run(step, s, es[..n]).1 <= Run(step, s, es).1
  {
    assert es == es[..n] + es[n..];
    RunAppend(step, s, es[..n], es[n..]);
  }
}
