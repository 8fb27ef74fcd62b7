/** Sizes of finite sets. */
module Sets {

  function Interval(lo: int, hi: int): (r: set<int>)
    requires lo <= hi
    ensures |r| == hi - lo && forall x :: x in r <==> lo <= x < hi
    decreases hi - lo
  {
    if lo == hi then {} else Interval(lo, hi - 1) + {hi - 1}
  }

  lemma {:induction false} SubsetSize<T>(a: set<T>, b: set<T>)
    requires a <= b
    ensures |a| <= |b|
  {
    assert b == a + (b - a);
  }

  lemma {:induction false} Pick<T>(s: set<T>) returns (x: T)
    requires s != {}
    ensures x in s
  {
    x :| x in s;
  }
}
