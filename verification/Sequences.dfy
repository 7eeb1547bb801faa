/** Sequences mapped element by element and concatenated. */
module Sequences {

  function FlatMap<A, B>(f: A -> seq<B>, s: seq<A>): seq<B> {
    if s == [] then [] else FlatMap(f, s[..|s| - 1]) + f(s[|s| - 1])
  }

  lemma FlatMapSnoc<A, B>(f: A -> seq<B>, s: seq<A>, a: A)
    ensures FlatMap(f, s + [a]) == FlatMap(f, s) + f(a)
  {
    assert (s + [a])[..|s|] == s;
  }

  lemma FlatMapPrefix<A, B>(f: A -> seq<B>, s: seq<A>, i: nat)
    requires i < |s|
    ensures FlatMap(f, s[..i + 1]) == FlatMap(f, s[..i]) + f(s[i])
  {
    assert s[..i + 1][..i] == s[..i];
  }

  lemma {:induction false} FlatMapAppend<A, B>(f: A -> seq<B>, s: seq<A>, t: seq<A>)
    ensures FlatMap(f, s + t) == FlatMap(f, s) + FlatMap(f, t)
  {
    if t == [] {
      assert s + t == s;
    } else {
      var u, a := t[..|t| - 1], t[|t| - 1];
      FlatMapAppend(f, s, u);
      calc {
        FlatMap(f, s + t);
        { assert (s + t)[..|s + t| - 1] == s + u; }
        FlatMap(f, s + u) + f(a);
        (FlatMap(f, s) + FlatMap(f, u)) + f(a);
        FlatMap(f, s) + (FlatMap(f, u) + f(a));
        FlatMap(f, s) + FlatMap(f, t);
      }
    }
  }

  lemma Regroup<T>(a: seq<T>, b: seq<T>, c: seq<T>)
    ensures (a + b) + c == a + (b + c)
  {
  }

  lemma TakeAcross<T>(s: seq<T>, t: seq<T>, n: nat)
    requires n <= |s| + |t|
    ensures (s + t)[..n] == if n < |s| then s[..n] else s + t[..n - |s|]
  {
  }
}
