/** Mapping and folding over sequences, front to back, and how they commute. */
module Folds {
  function Map<A, B>(f: A -> B, s: seq<A>): (t: seq<B>)
    ensures |t| == |s|
  {
    if s == [] then [] else Map(f, s[..|s| - 1]) + [f(s[|s| - 1])]
  }

  function Fold<D, R>(step: (D, R) -> D, start: D, rs: seq<R>): D {
    if rs == [] then start else step(Fold(step, start, rs[..|rs| - 1]), rs[|rs| - 1])
  }

  lemma {:induction false} MapAppend<A, B>(f: A -> B, s: seq<A>, x: A)
    ensures Map(f, s + [x]) == Map(f, s) + [f(x)]
  {
    assert (s + [x])[..|s|] == s;
  }

  lemma {:induction false} MapPrefix<A, B>(f: A -> B, s: seq<A>, n: nat)
    requires n < |s|
    ensures Map(f, s[..n + 1]) == Map(f, s[..n]) + [f(s[n])]
  {
    assert s[..n + 1][..n] == s[..n];
  }

  lemma {:induction false} FoldAppend<D, R>(step: (D, R) -> D, start: D, rs: seq<R>, r: R)
    ensures Fold(step, start, rs + [r]) == step(Fold(step, start, rs), r)
  {
    assert (rs + [r])[..|rs|] == rs;
  }

  lemma {:induction false} FoldMapAppend<D, R, S>(step: (D, R) -> D, f: S -> R, start: D, s: seq<S>, x: S)
    ensures Fold(step, start, Map(f, s + [x])) == step(Fold(step, start, Map(f, s)), f(x))
  {
    MapAppend(f, s, x);
    FoldAppend(step, start, Map(f, s), f(x));
  }

  lemma {:induction false} FoldConcat<D, R>(step: (D, R) -> D, start: D, a: seq<R>, b: seq<R>)
    ensures Fold(step, start, a + b) == Fold(step, Fold(step, start, a), b)
    decreases |b|
  {
    if b == [] {
      assert a + b == a;
    } else {
      var front, r := b[..|b| - 1], b[|b| - 1];
      FoldConcat(step, start, a, front);
      FoldAppend(step, start, a + front, r);
      assert a + b == a + front + [r];
    }
  }

  lemma {:induction false} MapConcat<A, B>(f: A -> B, a: seq<A>, b: seq<A>)
    ensures Map(f, a + b) == Map(f, a) + Map(f, b)
    decreases |b|
  {
    if b == [] {
      assert a + b == a;
    } else {
      var front, x := b[..|b| - 1], b[|b| - 1];
      MapConcat(f, a, front);
      MapAppend(f, a + front, x);
      assert a + b == a + front + [x];
    }
  }

  lemma {:induction false} MapAt<A, B>(f: A -> B, s: seq<A>, i: nat)
    requires i < |s|
    ensures Map(f, s)[i] == f(s[i])
  {
    if i < |s| - 1 { MapAt(f, s[..|s| - 1], i); }
  }

  lemma {:induction false} MapAll<A, B>(f: A -> B, s: seq<A>, y: B)
    requires y in Map(f, s)
    ensures exists x :: x in s && f(x) == y
  {
    var front, x := s[..|s| - 1], s[|s| - 1];
    assert x in s;
    if f(x) != y { MapAll(f, front, y); }
  }

  /** Reading each printed value gives the values back. */
  lemma {:induction false} MapInverse<A, B>(write: A -> B, read: B -> A, s: seq<A>)
    requires forall x :: x in s ==> read(write(x)) == x
    ensures Map(read, Map(write, s)) == s
  {
    if s != [] {
      var front, x := s[..|s| - 1], s[|s| - 1];
      assert s == front + [x] && x in s;
      MapInverse(write, read, front);
      MapAppend(write, front, x);
      MapAppend(read, Map(write, front), write(x));
    }
  }

  /** Folding over mapped elements is folding with the combined step. */
  lemma {:induction false} FoldOfMap<D, R, S>(f: (D, R) -> D, g: (D, S) -> D, h: S -> R, start: D, s: seq<S>)
    requires forall d, x :: x in s ==> f(d, h(x)) == g(d, x)
    ensures Fold(f, start, Map(h, s)) == Fold(g, start, s)
  {
    if s != [] {
      var front, x := s[..|s| - 1], s[|s| - 1];
      assert s == front + [x] && x in s;
      FoldOfMap(f, g, h, start, front);
      MapAppend(h, front, x);
      FoldAppend(f, start, Map(h, front), h(x));
      FoldAppend(g, start, front, x);
    }
  }
}
