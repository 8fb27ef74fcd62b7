/** Subsequences: what is left of a list when elements are dropped in place. */
module Subsequence {

  predicate Subseq<T(==)>(a: seq<T>, b: seq<T>)
    decreases |b|
  {
    if a == [] then true
    else if b == [] then false
    else
      || (a[|a| - 1] == b[|b| - 1] && Subseq(a[..|a| - 1], b[..|b| - 1]))
      || Subseq(a, b[..|b| - 1])
  }

  lemma {:induction false} Grow<T>(a: seq<T>, b: seq<T>, x: T)
    requires Subseq(a, b)
    ensures Subseq(a, b + [x]) && Subseq(a + [x], b + [x])
  {
    assert (b + [x])[..|b|] == b && (a + [x])[..|a|] == a;
  }

  /** Dropping the last element of the shorter list keeps it a subsequence. */
  lemma {:induction false} DropLast<T>(a: seq<T>, b: seq<T>)
    requires Subseq(a, b) && a != []
    ensures Subseq(a[..|a| - 1], b)
    decreases |b|
  {
    var front := b[..|b| - 1];
    assert b == front + [b[|b| - 1]];
    if Subseq(a, front) {
      DropLast(a, front);
    }
    Grow(a[..|a| - 1], front, b[|b| - 1]);
  }

  lemma {:induction false} Prefix<T>(a: seq<T>, tail: seq<T>, b: seq<T>)
    requires Subseq(a + tail, b)
    ensures Subseq(a, b)
    decreases |tail|
  {
    if tail == [] {
      assert a + tail == a;
    } else {
      DropLast(a + tail, b);
      assert (a + tail)[..|a + tail| - 1] == a + tail[..|tail| - 1];
      Prefix(a, tail[..|tail| - 1], b);
    }
  }

  ghost predicate NoRepeats<T>(a: seq<T>) {
    forall i, j :: 0 <= i < j < |a| ==> a[i] != a[j]
  }

  lemma {:induction false} SubseqMembers<T>(a: seq<T>, b: seq<T>)
    requires Subseq(a, b)
    ensures forall x :: x in a ==> x in b
    decreases |b|
  {
    if a != [] {
      assert a == a[..|a| - 1] + [a[|a| - 1]] && b == b[..|b| - 1] + [b[|b| - 1]];
      if Subseq(a, b[..|b| - 1]) {
        SubseqMembers(a, b[..|b| - 1]);
      } else {
        SubseqMembers(a[..|a| - 1], b[..|b| - 1]);
      }
    }
  }

  lemma {:induction false} SubseqNoRepeats<T>(a: seq<T>, b: seq<T>)
    requires Subseq(a, b) && NoRepeats(b)
    ensures NoRepeats(a)
    decreases |b|
  {
    if a != [] {
      var front := b[..|b| - 1];
      if Subseq(a, front) {
        SubseqNoRepeats(a, front);
      } else {
        SubseqNoRepeats(a[..|a| - 1], front);
        SubseqMembers(a[..|a| - 1], front);
        assert a == a[..|a| - 1] + [a[|a| - 1]] && b == front + [b[|b| - 1]];
        assert a[|a| - 1] !in front;
      }
    }
  }

  lemma {:induction false} Extend<T>(a: seq<T>, b: seq<T>, tail: seq<T>)
    requires Subseq(a, b)
    ensures Subseq(a, b + tail)
    decreases |tail|
  {
    if tail == [] {
      assert b + tail == b;
    } else {
      var front, x := tail[..|tail| - 1], tail[|tail| - 1];
      Extend(a, b, front);
      Grow(a, b + front, x);
      assert b + tail == b + front + [x];
    }
  }

  /** The next element may follow what was taken from before it. */
  lemma {:induction false} Follow<T>(a: seq<T>, front: seq<T>, x: T, tail: seq<T>)
    requires Subseq(a, front)
    ensures Subseq(a + [x], front + [x] + tail)
  {
    Grow(a, front, x);
    Extend(a + [x], front + [x], tail);
  }

  lemma {:induction false} SubseqTrans<T>(a: seq<T>, b: seq<T>, c: seq<T>)
    requires Subseq(a, b) && Subseq(b, c)
    ensures Subseq(a, c)
    decreases |c|
  {
    if a != [] {
      var front := c[..|c| - 1];
      assert c == front + [c[|c| - 1]];
      if Subseq(b, front) {
        SubseqTrans(a, b, front);
        Grow(a, front, c[|c| - 1]);
      } else if Subseq(a, b[..|b| - 1]) {
        SubseqTrans(a, b[..|b| - 1], front);
        Grow(a, front, c[|c| - 1]);
      } else {
        SubseqTrans(a[..|a| - 1], b[..|b| - 1], front);
        Grow(a[..|a| - 1], front, c[|c| - 1]);
        assert a == a[..|a| - 1] + [a[|a| - 1]];
      }
    }
  }

  // ---- a list picked from another by position ----

  /** r holds the elements of xs at the rising positions idx. */
  ghost predicate Selection<T>(r: seq<T>, xs: seq<T>, idx: seq<int>) {
    && |idx| == |r|
    && (forall j, k :: 0 <= j < k < |idx| ==> idx[j] < idx[k])
    && forall k :: 0 <= k < |r| ==> 0 <= idx[k] < |xs| && r[k] == xs[idx[k]]
  }

  /** r holds the elements of xs at the chosen positions and no others, in order. */
  ghost predicate Picks<T>(r: seq<T>, xs: seq<T>, chosen: set<int>) {
    exists idx :: Selection(r, xs, idx) && forall i :: i in idx <==> i in chosen
  }

  lemma {:induction false} PicksNone<T>()
    ensures Picks<T>([], [], {})
  {
    assert Selection<T>([], [], []);
  }

  lemma {:induction false} PicksSkip<T>(r: seq<T>, xs: seq<T>, chosen: set<int>, x: T)
    requires Picks(r, xs, chosen)
    ensures Picks(r, xs + [x], chosen)
  {
    var idx :| Selection(r, xs, idx) && forall i :: i in idx <==> i in chosen;
    assert Selection(r, xs + [x], idx);
  }

  /** One element more, taken if its position is among those asked for. */
  lemma {:induction false} PicksNext<T>(r: seq<T>, xs: seq<T>, n: nat, wanted: set<int>)
    requires n < |xs| && Picks(r, xs[..n], set j | 0 <= j < n && j in wanted)
    ensures Picks(if n in wanted then r + [xs[n]] else r, xs[..n + 1], set j | 0 <= j < n + 1 && j in wanted)
  {
    var before := set j | 0 <= j < n && j in wanted;
    assert xs[..n + 1] == xs[..n] + [xs[n]];
    if n in wanted {
      assert (set j | 0 <= j < n + 1 && j in wanted) == before + {n};
      PicksTake(r, xs[..n], before, xs[n]);
    } else {
      assert (set j | 0 <= j < n + 1 && j in wanted) == before;
      PicksSkip(r, xs[..n], before, xs[n]);
    }
  }

  /** The list grows from f(k) to f(k + 1) by the k-th element, if it is wanted. */
  ghost predicate PickStep<T>(f: nat -> seq<T>, xs: seq<T>, wanted: set<int>, k: nat) {
    k < |xs| && f(k + 1) == if k in wanted then f(k) + [xs[k]] else f(k)
  }

  /** A list built up element by element. */
  lemma {:induction false} PicksSoFar<T>(f: nat -> seq<T>, xs: seq<T>, wanted: set<int>, n: nat)
    requires n <= |xs| && f(0) == [] && forall k: nat :: k < |xs| ==> PickStep(f, xs, wanted, k)
    ensures Picks(f(n), xs[..n], set j | 0 <= j < n && j in wanted)
  {
    if n == 0 {
      PicksNone<T>();
      assert (set j | 0 <= j < n && j in wanted) == {};
    } else {
      PicksSoFar(f, xs, wanted, n - 1);
      assert PickStep(f, xs, wanted, n - 1);
      PicksNext(f(n - 1), xs, n - 1, wanted);
    }
  }

  lemma {:induction false} PicksBySteps<T>(f: nat -> seq<T>, xs: seq<T>, wanted: set<int>)
    requires f(0) == [] && forall k: nat :: k < |xs| ==> PickStep(f, xs, wanted, k)
    requires forall j :: j in wanted ==> 0 <= j < |xs|
    ensures Picks(f(|xs|), xs, wanted)
  {
    PicksSoFar(f, xs, wanted, |xs|);
    assert xs[..|xs|] == xs && (set j | 0 <= j < |xs| && j in wanted) == wanted;
  }

  lemma {:induction false} PicksTake<T>(r: seq<T>, xs: seq<T>, chosen: set<int>, x: T)
    requires Picks(r, xs, chosen)
    ensures Picks(r + [x], xs + [x], chosen + {|xs|})
  {
    var idx :| Selection(r, xs, idx) && forall i :: i in idx <==> i in chosen;
    var longer := idx + [|xs|];
    assert Selection(r + [x], xs + [x], longer);
    forall i ensures i in longer <==> i in chosen + {|xs|} {}
  }
}
