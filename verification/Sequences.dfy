/** Mapping each element of a sequence to several. */
module Sequences {
  function FlatMap<A, B>(f: A -> seq<B>, s: seq<A>): seq<B> {
    if s == [] then [] else f(s[0]) + FlatMap(f, s[1..])
  }

  lemma {:induction false} FlatMapConcat<A, B>(f: A -> seq<B>, s: seq<A>, t: seq<A>)
    ensures FlatMap(f, s + t) == FlatMap(f, s) + FlatMap(f, t)
  {
    if s == [] {
      assert s + t == t;
    } else {
      FlatMapConcat(f, s[1..], t);
      FlatMapFirst(f, s[0], s[1..] + t);
      assert s + t == [s[0]] + (s[1..] + t);
      Associative(f(s[0]), FlatMap(f, s[1..]), FlatMap(f, t));
    }
  }

  lemma Associative<B>(a: seq<B>, b: seq<B>, c: seq<B>)
    ensures a + (b + c) == (a + b) + c
  {
  }

  lemma FlatMapOne<A, B>(f: A -> seq<B>, a: A)
    ensures FlatMap(f, [a]) == f(a)
  {
    assert [a][1..] == [];
    assert FlatMap(f, []) == [];
  }

  lemma FlatMapFirst<A, B>(f: A -> seq<B>, a: A, s: seq<A>)
    ensures FlatMap(f, [a] + s) == f(a) + FlatMap(f, s)
  {
    assert ([a] + s)[1..] == s;
  }
}
