/** cmd/geo-gen: collapsing a provider's CIDR dump and capping the result. */
module Aggregate {
  import opened Bits
  import opened Blocks
  import Subsequence

  /** No merge may produce a block wider than this. */
  const MIN_AGG_BITS: nat := 8

  /** The two orders blocks are sorted by: in the aggregation and the finished
      file by address, before the cap with the larger blocks first. */
  datatype Order = ByAddress | BySize

  predicate Less(o: Order, a: Cidr, b: Cidr) {
    match o
    case ByAddress => if a.base != b.base then a.base < b.base else a.bits < b.bits
    case BySize => if a.bits != b.bits then a.bits < b.bits else a.base < b.base
  }

  predicate Contains(outer: Cidr, inner: Cidr) {
    outer.bits <= inner.bits && And(inner.base, Mask(outer.bits)) == outer.base
  }

  lemma {:induction false} ContainsIsInside(outer: Cidr, inner: Cidr)
    ensures Contains(outer, inner) <==> Inside(inner, outer)
  {
    MaskClears(inner.base, outer.bits);
    var o := BlockOf(inner.base, outer.bits);
    if outer.bits <= inner.bits {
      Laminar(o, inner);
      if Inside(inner, outer) {
        Laminar(o, outer);
        Laminar(outer, o);
        InsideBits(o, outer);
      }
    } else if Inside(inner, outer) {
      InsideBits(inner, outer);
    }
  }

  /** The merge test: same length, narrower than the limit, same parent. */
  predicate Mergeable(a: Cidr, b: Cidr) {
    a.bits == b.bits && a.bits > MIN_AGG_BITS
    && And(a.base, Mask(a.bits - 1)) == And(b.base, Mask(a.bits - 1)) && a.base != b.base
  }

  function ParentOf(a: Cidr): (p: Cidr)
    requires a.bits > 0
    ensures p.bits == a.bits - 1 && Inside(a, p)
  {
    var p := BlockOf(a.base, a.bits - 1);
    Laminar(p, a);
    p
  }

  lemma {:induction false} HalvesMerge(q: Cidr)
    requires MIN_AGG_BITS <= q.bits < 32
    ensures Mergeable(LowerHalf(q), UpperHalf(q))
  {
    SameParent(q, LowerHalf(q));
    SameParent(q, UpperHalf(q));
  }

  lemma {:induction false} SameParent(q: Cidr, h: Cidr)
    requires Inside(h, q) && h.bits == q.bits + 1
    ensures ParentOf(h) == q && And(h.base, Mask(h.bits - 1)) == q.base
  {
    Laminar(ParentOf(h), q);
    InsideBits(q, ParentOf(h));
  }

  /** Mergeable blocks in address order are the two halves of their parent. */
  lemma {:induction false} MergeableAreHalves(a: Cidr, b: Cidr)
    requires Mergeable(a, b) && a.End() <= b.base
    ensures a == LowerHalf(ParentOf(a)) && b == UpperHalf(ParentOf(a))
  {
    var p := ParentOf(a);
    assert ParentOf(b) == p;
    HalfOf(p, a);
    HalfOf(p, b);
  }

  lemma {:induction false} HalfOf(p: Cidr, h: Cidr)
    requires Inside(h, p) && h.bits == p.bits + 1
    ensures h == LowerHalf(p) || h == UpperHalf(p)
  {
    if Meet(h, LowerHalf(p)) {
      Laminar(h, LowerHalf(p));
      InsideBits(LowerHalf(p), h);
    } else {
      Laminar(h, UpperHalf(p));
      InsideBits(UpperHalf(p), h);
    }
  }

  // ---- a list no neighbours of which merge absorbs what it covers ----

  ghost predicate NothingMerges(bs: seq<Cidr>) {
    forall i :: 0 <= i < |bs| - 1 ==> !Mergeable(bs[i], bs[i + 1])
  }

  lemma {:induction false} RoomBetween(bs: seq<Cidr>, i: nat, m: nat, j: nat)
    requires Ascending(bs) && i < m < j < |bs|
    ensures bs[i].End() < bs[j].base
  {
    assert bs[i].End() <= bs[m].base && bs[m].End() <= bs[j].base;
  }

  lemma {:induction false} NeighboursAdjacent(bs: seq<Cidr>, i: nat, j: nat)
    requires Ascending(bs) && i < |bs| && j < |bs| && bs[i].End() == bs[j].base
    ensures j == i + 1
  {
    if i + 1 < j { RoomBetween(bs, i, i + 1, j); }
  }

  lemma {:induction false} AbsorbsBlock(bs: seq<Cidr>, q: Cidr)
    requires Ascending(bs) && NothingMerges(bs)
    requires q.bits >= MIN_AGG_BITS && Covered(q, bs)
    ensures InsideSome(q, bs)
    decreases 32 - q.bits
  {
    if q.bits == 32 {
      HasBase(q);
      var i :| 0 <= i < |bs| && Has(bs[i], q.base);
      assert Inside(q, bs[i]);
    } else {
      var lo, hi := LowerHalf(q), UpperHalf(q);
      AbsorbsBlock(bs, lo);
      AbsorbsBlock(bs, hi);
      var i :| 0 <= i < |bs| && Inside(lo, bs[i]);
      var j :| 0 <= j < |bs| && Inside(hi, bs[j]);
      if bs[i] != lo {
        WiderThanHalf(lo, q, bs[i]);
      } else if bs[j] != hi {
        WiderThanHalf(hi, q, bs[j]);
      } else {
        NeighboursAdjacent(bs, i, j);
        HalvesMerge(q);
        assert false;
      }
    }
  }

  lemma {:induction false} NothingMergesAbsorbs(bs: seq<Cidr>)
    requires Ascending(bs) && NothingMerges(bs)
    ensures Absorbs(bs, MIN_AGG_BITS)
  {
    forall q: Cidr | q.bits >= MIN_AGG_BITS && Covered(q, bs) ensures InsideSome(q, bs) {
      AbsorbsBlock(bs, q);
    }
  }

  // ---- what a pass must preserve ----

  /** The input blocks wider than the limit that no other input block contains. */
  ghost function OuterWide(bs: seq<Cidr>): set<Cidr> {
    set b | b in bs && b.bits < MIN_AGG_BITS && forall c :: c in bs && Inside(b, c) ==> c == b
  }

  ghost predicate Equivalent(a: seq<Cidr>, b: seq<Cidr>) {
    SameCover(a, b) && OuterWide(a) == OuterWide(b)
  }

  /** Dropping blocks that lie inside a remaining one changes nothing. */
  lemma {:induction false} DropContained(a: seq<Cidr>, b: seq<Cidr>)
    requires forall x :: x in b ==> x in a
    requires forall x :: x in a ==> InsideSome(x, b)
    ensures Equivalent(a, b)
  {
    forall x ensures Covers(a, x) <==> Covers(b, x) {
      if Covers(a, x) {
        var i :| 0 <= i < |a| && Has(a[i], x);
        assert InsideSome(a[i], b);
        var j :| 0 <= j < |b| && Inside(a[i], b[j]);
        assert Has(b[j], x);
      }
      if Covers(b, x) {
        var j :| 0 <= j < |b| && Has(b[j], x);
        assert b[j] in a;
        var i :| 0 <= i < |a| && a[i] == b[j];
        assert Has(a[i], x);
      }
    }
    forall w ensures w in OuterWide(a) <==> w in OuterWide(b) {
      if w in OuterWide(a) { OuterKept(a, b, w); }
      if w in OuterWide(b) { OuterFound(a, b, w); }
    }
  }

  lemma {:induction false} OuterKept(a: seq<Cidr>, b: seq<Cidr>, w: Cidr)
    requires forall x :: x in b ==> x in a
    requires forall x :: x in a ==> InsideSome(x, b)
    requires w in OuterWide(a)
    ensures w in OuterWide(b)
  {
    assert InsideSome(w, b);
    var j :| 0 <= j < |b| && Inside(w, b[j]);
    assert b[j] in a;
  }

  lemma {:induction false} OuterFound(a: seq<Cidr>, b: seq<Cidr>, w: Cidr)
    requires forall x :: x in b ==> x in a
    requires forall x :: x in a ==> InsideSome(x, b)
    requires w in OuterWide(b)
    ensures w in OuterWide(a)
  {
    forall c | c in a && Inside(w, c) ensures c == w {
      assert InsideSome(c, b);
      var j :| 0 <= j < |b| && Inside(c, b[j]);
      assert b[j] in b && Inside(w, b[j]);
      InsideBits(w, c);
      InsideBits(c, b[j]);
    }
  }

  lemma {:induction false} OuterWideOfAscending(bs: seq<Cidr>)
    requires Ascending(bs)
    ensures OuterWide(bs) == Wide(bs, MIN_AGG_BITS)
  {
    forall b, c | b in bs && c in bs && Inside(b, c) ensures c == b {
      var i :| 0 <= i < |bs| && bs[i] == b;
      var j :| 0 <= j < |bs| && bs[j] == c;
      SameBlockIfNested(bs, i, j);
    }
  }

  // ---- the sort ----

  ghost predicate Sorted(o: Order, bs: seq<Cidr>) {
    forall i, j :: 0 <= i < j < |bs| ==> !Less(o, bs[j], bs[i])
  }

  lemma {:induction false} SortedCons(o: Order, b: Cidr, bs: seq<Cidr>)
    requires Sorted(o, bs) && forall x :: x in bs ==> !Less(o, x, b)
    ensures Sorted(o, [b] + bs)
  {
  }

  lemma {:induction false} SortedUncons(o: Order, bs: seq<Cidr>)
    requires Sorted(o, bs) && bs != []
    ensures Sorted(o, bs[1..]) && forall x :: x in bs[1..] ==> !Less(o, x, bs[0])
  {
  }

  function InsertBlock(o: Order, b: Cidr, bs: seq<Cidr>): (r: seq<Cidr>)
    requires Sorted(o, bs)
    ensures Sorted(o, r) && |r| == |bs| + 1
    ensures forall x :: x in r <==> x == b || x in bs
  {
    if bs == [] then [b]
    else
      SortedUncons(o, bs);
      assert bs == [bs[0]] + bs[1..];
      if Less(o, b, bs[0]) then
        SortedCons(o, b, bs);
        [b] + bs
      else
        var rest := InsertBlock(o, b, bs[1..]);
        SortedCons(o, bs[0], rest);
        [bs[0]] + rest
  }

  /** Stands for `sort.Slice` with `less`: any sort gives this list, because
      blocks that compare equal are equal. */
  function SortBlocks(o: Order, bs: seq<Cidr>): (r: seq<Cidr>)
    ensures Sorted(o, r) && |r| == |bs|
    ensures forall x :: x in r <==> x in bs
  {
    if bs == [] then [] else InsertBlock(o, bs[0], SortBlocks(o, bs[1..]))
  }

  lemma {:induction false} SortEquivalent(o: Order, bs: seq<Cidr>)
    ensures Equivalent(bs, SortBlocks(o, bs))
  {
    forall x | x in bs ensures InsideSome(x, SortBlocks(o, bs)) {
      var i :| 0 <= i < |SortBlocks(o, bs)| && SortBlocks(o, bs)[i] == x;
      assert Inside(x, SortBlocks(o, bs)[i]);
    }
    DropContained(bs, SortBlocks(o, bs));
  }

  // ---- the prune ----

  /** Keeps a block unless the last one kept contains it. */
  function Pruned(bs: seq<Cidr>): (r: seq<Cidr>)
    ensures |r| <= |bs| && (bs != [] ==> r != [])
  {
    if bs == [] then []
    else
      var kept, b := Pruned(bs[..|bs| - 1]), bs[|bs| - 1];
      if kept != [] && Contains(kept[|kept| - 1], b) then kept else kept + [b]
  }

  /** A block that sorts after another either lies inside it or behind it. */
  lemma {:induction false} InsideOrBehind(a: Cidr, b: Cidr)
    requires !Less(ByAddress, b, a)
    ensures Inside(b, a) || a.End() <= b.base
  {
    if Meet(a, b) {
      if a.bits <= b.bits {
        Laminar(a, b);
      } else {
        Laminar(b, a);
      }
    }
  }

  lemma {:induction false} PrunedMembers(bs: seq<Cidr>)
    ensures forall x :: x in Pruned(bs) ==> x in bs
    decreases |bs|
  {
    if bs != [] {
      PrunedMembers(bs[..|bs| - 1]);
    }
  }

  lemma {:induction false} PrunedAscending(bs: seq<Cidr>)
    requires Sorted(ByAddress, bs)
    ensures Ascending(Pruned(bs))
    decreases |bs|
  {
    if bs != [] {
      var front, b := bs[..|bs| - 1], bs[|bs| - 1];
      var kept := Pruned(front);
      PrunedAscending(front);
      if kept != [] {
        var last := kept[|kept| - 1];
        PrunedMembers(front);
        assert last in front;
        InsideOrBehind(last, b);
        ContainsIsInside(last, b);
      }
    }
  }

  lemma {:induction false} PrunedContainsAll(bs: seq<Cidr>, x: Cidr)
    requires x in bs
    ensures InsideSome(x, Pruned(bs))
    decreases |bs|
  {
    var front, b := bs[..|bs| - 1], bs[|bs| - 1];
    assert bs == front + [b];
    if x != b { PrunedContainsAll(front, x); }
    PrunedHolds(front, b, x);
  }

  lemma {:induction false} PrunedHolds(front: seq<Cidr>, b: Cidr, x: Cidr)
    requires x == b || InsideSome(x, Pruned(front))
    ensures InsideSome(x, Pruned(front + [b]))
  {
    assert (front + [b])[..|front|] == front;
    var kept, all := Pruned(front), Pruned(front + [b]);
    if x == b && all == kept {
      ContainsIsInside(kept[|kept| - 1], b);
    } else if x == b {
      assert Inside(b, all[|kept|]);
    } else {
      var i :| 0 <= i < |kept| && Inside(x, kept[i]);
      assert all[i] == kept[i];
    }
  }

  lemma {:induction false} PruneEquivalent(bs: seq<Cidr>)
    requires Sorted(ByAddress, bs)
    ensures Ascending(Pruned(bs)) && Equivalent(bs, Pruned(bs))
  {
    PrunedAscending(bs);
    PrunedMembers(bs);
    forall x | x in bs ensures InsideSome(x, Pruned(bs)) { PrunedContainsAll(bs, x); }
    DropContained(bs, Pruned(bs));
  }

  // ---- the merge ----

  /** One left-to-right pass that replaces mergeable neighbours by their parent. */
  function Merged(bs: seq<Cidr>): (r: seq<Cidr>)
    ensures |r| <= |bs|
  {
    if |bs| >= 2 && Mergeable(bs[0], bs[1]) then [ParentOf(bs[0])] + Merged(bs[2..])
    else if bs == [] then []
    else [bs[0]] + Merged(bs[1..])
  }

  lemma {:induction false} CoversPair(bs: seq<Cidr>, x: int)
    requires Ascending(bs) && |bs| >= 2 && Mergeable(bs[0], bs[1])
    ensures Covers(bs, x) <==> Has(ParentOf(bs[0]), x) || Covers(bs[2..], x)
  {
    MergeableAreHalves(bs[0], bs[1]);
    CoversTail(bs, x);
    CoversTail(bs[1..], x);
    assert bs[1..][1..] == bs[2..];
  }

  lemma {:induction false} MergedCover(bs: seq<Cidr>, x: int)
    requires Ascending(bs)
    ensures Covers(Merged(bs), x) <==> Covers(bs, x)
    decreases |bs|
  {
    if |bs| >= 2 && Mergeable(bs[0], bs[1]) {
      MergedCover(bs[2..], x);
      CoversPair(bs, x);
      CoversCons(ParentOf(bs[0]), Merged(bs[2..]), x);
    } else if bs != [] {
      MergedCover(bs[1..], x);
      CoversTail(bs, x);
      CoversCons(bs[0], Merged(bs[1..]), x);
    }
  }

  lemma {:induction false} MergedFrom(bs: seq<Cidr>, low: nat)
    requires Ascending(bs) && forall i :: 0 <= i < |bs| ==> low <= bs[i].base
    ensures forall i :: 0 <= i < |Merged(bs)| ==> low <= Merged(bs)[i].base
  {
    forall i | 0 <= i < |Merged(bs)| ensures low <= Merged(bs)[i].base {
      HasBase(Merged(bs)[i]);
      MergedCover(bs, Merged(bs)[i].base);
    }
  }

  lemma {:induction false} MergedAscending(bs: seq<Cidr>)
    requires Ascending(bs)
    ensures Ascending(Merged(bs))
    decreases |bs|
  {
    if |bs| >= 2 && Mergeable(bs[0], bs[1]) {
      MergeableAreHalves(bs[0], bs[1]);
      MergedAscending(bs[2..]);
      MergedFrom(bs[2..], bs[1].End());
    } else if bs != [] {
      MergedAscending(bs[1..]);
      MergedFrom(bs[1..], bs[0].End());
    }
  }

  lemma {:induction false} MergedWide(bs: seq<Cidr>)
    ensures Wide(Merged(bs), MIN_AGG_BITS) == Wide(bs, MIN_AGG_BITS)
    decreases |bs|
  {
    if |bs| >= 2 && Mergeable(bs[0], bs[1]) {
      MergedWide(bs[2..]);
      assert bs == [bs[0], bs[1]] + bs[2..];
      WideOfConcat([bs[0], bs[1]], bs[2..]);
      WideOfConcat([ParentOf(bs[0])], Merged(bs[2..]));
    } else if bs != [] {
      MergedWide(bs[1..]);
      assert bs == [bs[0]] + bs[1..];
      WideOfConcat([bs[0]], bs[1..]);
      WideOfConcat([bs[0]], Merged(bs[1..]));
    }
  }

  lemma {:induction false} WideOfConcat(a: seq<Cidr>, b: seq<Cidr>)
    ensures Wide(a + b, MIN_AGG_BITS) == Wide(a, MIN_AGG_BITS) + Wide(b, MIN_AGG_BITS)
  {
  }

  /** A pass that shortens nothing leaves the list as it is, with nothing to merge. */
  lemma {:induction false} MergedUnchanged(bs: seq<Cidr>)
    requires |Merged(bs)| == |bs|
    ensures Merged(bs) == bs && NothingMerges(bs)
    decreases |bs|
  {
    if bs != [] {
      assert !(|bs| >= 2 && Mergeable(bs[0], bs[1]));
      MergedUnchanged(bs[1..]);
      assert bs == [bs[0]] + bs[1..];
      forall i | 0 <= i < |bs| - 1 ensures !Mergeable(bs[i], bs[i + 1]) {
        if i > 0 { assert bs[i] == bs[1..][i - 1]; }
      }
    }
  }

  lemma {:induction false} MergeEquivalent(bs: seq<Cidr>)
    requires Ascending(bs)
    ensures Ascending(Merged(bs)) && Equivalent(bs, Merged(bs))
  {
    forall x ensures Covers(Merged(bs), x) <==> Covers(bs, x) { MergedCover(bs, x); }
    MergedAscending(bs);
    MergedWide(bs);
    OuterWideOfAscending(bs);
    OuterWideOfAscending(Merged(bs));
  }

  // ---- aggregateCIDRs ----

  /** One input line, "a.b.c.d/p" or something that is not an IPv4 prefix. */
  datatype Line = Malformed | Prefix(addr: nat, bits: nat)

  predicate Usable(l: Line) {
    l.Prefix? && l.addr < SPACE && 1 <= l.bits <= 32
  }

  /** The blocks the usable lines denote, in line order. */
  function BlocksOf(lines: seq<Line>): seq<Cidr> {
    if lines == [] then []
    else
      var front, l := BlocksOf(lines[..|lines| - 1]), lines[|lines| - 1];
      if Usable(l) then front + [BlockOf(l.addr, l.bits)] else front
  }

  lemma {:induction false} BlocksOfAppend(lines: seq<Line>, b: Cidr)
    requires Usable(Prefix(b.base, b.bits))
    ensures BlocksOf(lines + [Prefix(b.base, b.bits)]) == BlocksOf(lines) + [b]
  {
    assert (lines + [Prefix(b.base, b.bits)])[..|lines|] == lines;
    BlockOfItself(b);
  }

  /** The line is a prefix the generator takes, and its block holds x. */
  predicate LineHas(l: Line, x: int) {
    && l.Prefix? && l.addr < SPACE && 1 <= l.bits <= 32
    && Has(BlockOf(l.addr, l.bits), x)
  }

  predicate LineGives(l: Line, b: Cidr) {
    && l.Prefix? && l.addr < SPACE && 1 <= l.bits <= 32
    && BlockOf(l.addr, l.bits) == b
  }

  lemma {:induction false} BlocksOfLines(lines: seq<Line>, b: Cidr)
    ensures b in BlocksOf(lines) <==> exists i :: 0 <= i < |lines| && LineGives(lines[i], b)
  {
    if lines != [] {
      var front, l := lines[..|lines| - 1], lines[|lines| - 1];
      BlocksOfLines(front, b);
      if b in BlocksOf(front) {
        var i :| 0 <= i < |front| && LineGives(front[i], b);
        assert LineGives(lines[i], b);
      } else if LineGives(l, b) {
        assert LineGives(lines[|lines| - 1], b);
      } else {
        forall i | 0 <= i < |lines| ensures !LineGives(lines[i], b) {
          if i < |front| { assert !LineGives(front[i], b); }
        }
      }
    }
  }

  lemma {:induction false} LinesCover(lines: seq<Line>, bs: seq<Cidr>, x: int)
    requires forall b :: b in bs <==> exists i :: 0 <= i < |lines| && LineGives(lines[i], b)
    ensures Covers(bs, x) <==> exists i :: 0 <= i < |lines| && LineHas(lines[i], x)
  {
    if Covers(bs, x) {
      var j :| 0 <= j < |bs| && Has(bs[j], x);
      assert bs[j] in bs;
      var i :| 0 <= i < |lines| && LineGives(lines[i], bs[j]);
      assert LineHas(lines[i], x);
    }
    if exists i :: 0 <= i < |lines| && LineHas(lines[i], x) {
      var i :| 0 <= i < |lines| && LineHas(lines[i], x);
      var b := BlockOf(lines[i].addr, lines[i].bits);
      assert LineGives(lines[i], b);
      assert b in bs;
      var j :| 0 <= j < |bs| && bs[j] == b;
      assert Has(bs[j], x);
    }
  }

  /** What `aggregateCIDRs` promises: the same addresses in disjoint, ordered
      blocks, of which it made none wider than /8 and can merge no more. */
  ghost predicate IsAggregate(bs: seq<Cidr>, out: seq<Cidr>) {
    && Ascending(out)
    && SameCover(bs, out)
    && Absorbs(out, MIN_AGG_BITS)
    && Wide(out, MIN_AGG_BITS) == OuterWide(bs)
  }

  /** The in-place filter `pruned := bs[:0]`. */
  method PruneInPlace(a: array<Cidr>) returns (n: nat)
    modifies a
    ensures n <= a.Length && a[..n] == Pruned(old(a[..]))
  {
    ghost var all := a[..];
    n := 0;
    for i := 0 to a.Length
      invariant n <= i && a[..n] == Pruned(all[..i])
      invariant forall k :: i <= k < a.Length ==> a[k] == all[k]
    {
      PrunedStep(all, i);
      ghost var kept := a[..n];
      if n > 0 && Contains(a[n - 1], a[i]) {
        continue;
      }
      a[n] := a[i];
      n := n + 1;
      assert a[..n] == kept + [all[i]];
    }
    assert all[..a.Length] == all;
  }

  lemma {:induction false} PrunedStep(all: seq<Cidr>, i: nat)
    requires i < |all|
    ensures var kept := Pruned(all[..i]);
            Pruned(all[..i + 1]) == if kept != [] && Contains(kept[|kept| - 1], all[i]) then kept else kept + [all[i]]
  {
    assert all[..i + 1][..i] == all[..i];
  }

  /** The block a pass emits at position i, and how many it stands for. */
  method NextMerge(bs: seq<Cidr>, i: nat, ghost todo: seq<Cidr>) returns (b: Cidr, taken: nat)
    requires i < |bs| && todo == bs[i..]
    ensures 1 <= taken <= |todo| && taken <= 2 && Merged(todo) == [b] + Merged(todo[taken..])
  {
    if i + 1 < |bs| && Mergeable(bs[i], bs[i + 1]) {
      return ParentOf(bs[i]), 2;
    }
    return bs[i], 1;
  }

  lemma {:induction false} MergeShift(done: seq<Cidr>, todo: seq<Cidr>, b: Cidr, rest: seq<Cidr>, all: seq<Cidr>)
    requires done + Merged(todo) == all && Merged(todo) == [b] + Merged(rest)
    ensures done + [b] + Merged(rest) == all
  {
  }

  method MergePass(bs: seq<Cidr>) returns (merged: seq<Cidr>, changed: bool)
    ensures merged == Merged(bs)
    ensures changed <==> |merged| < |bs|
  {
    merged, changed := [], false;
    var i := 0;
    ghost var todo, all := bs, Merged(bs);
    while i < |bs|
      invariant i <= |bs| && todo == bs[i..]
      invariant merged + Merged(todo) == all
      invariant |merged| <= i && (changed <==> |merged| < i)
    {
      var b, taken := NextMerge(bs, i, todo);
      MergeShift(merged, todo, b, todo[taken..], all);
      todo := todo[taken..];
      merged := merged + [b];
      i := i + taken;
      changed := changed || taken == 2;
    }
  }

  method ParseLines(lines: seq<Line>) returns (bs: seq<Cidr>)
    ensures bs == BlocksOf(lines)
    ensures forall b :: b in bs <==> exists i :: 0 <= i < |lines| && LineGives(lines[i], b)
    ensures forall x :: Covers(bs, x) <==> exists i :: 0 <= i < |lines| && LineHas(lines[i], x)
  {
    bs := [];
    for i := 0 to |lines|
      invariant bs == BlocksOf(lines[..i])
    {
      assert lines[..i + 1][..i] == lines[..i];
      if Usable(lines[i]) {
        bs := bs + [BlockOf(lines[i].addr, lines[i].bits)];
      }
    }
    assert lines[..|lines|] == lines;
    forall b ensures b in bs <==> exists i :: 0 <= i < |lines| && LineGives(lines[i], b) { BlocksOfLines(lines, b); }
    forall x ensures Covers(bs, x) <==> exists i :: 0 <= i < |lines| && LineHas(lines[i], x) { LinesCover(lines, bs, x); }
  }

  /** The sorted blocks in an array of their own, filtered there. */
  method PruneSorted(sorted: seq<Cidr>) returns (pruned: seq<Cidr>)
    ensures pruned == Pruned(sorted)
  {
    var a := new Cidr[|sorted|](i requires 0 <= i < |sorted| => sorted[i]);
    assert a[..] == sorted;
    var n := PruneInPlace(a);
    pruned := a[..n];
  }

  /** One round of the fixpoint loop: sort, prune in place, merge. */
  method Round(bs: seq<Cidr>) returns (out: seq<Cidr>, changed: bool)
    ensures Equivalent(bs, out) && Ascending(out)
    ensures changed ==> |out| < |bs|
    ensures !changed ==> NothingMerges(out)
  {
    var sorted := SortBlocks(ByAddress, bs);
    SortEquivalent(ByAddress, bs);
    PruneEquivalent(sorted);
    var pruned := PruneSorted(sorted);
    out, changed := MergePass(pruned);
    MergeEquivalent(pruned);
    if !changed { MergedUnchanged(pruned); }
  }

  /** A line that is no usable prefix adds nothing and takes nothing away. */
  method AggregateCIDRs(lines: seq<Line>) returns (out: seq<Cidr>)
    ensures IsAggregate(BlocksOf(lines), out)
    ensures forall x :: Covers(out, x) <==> exists i :: 0 <= i < |lines| && LineHas(lines[i], x)
  {
    out := ParseLines(lines);
    ghost var parsed := out;
    var changed := true;
    while changed
      invariant Equivalent(BlocksOf(lines), out)
      invariant !changed ==> Ascending(out) && NothingMerges(out)
      decreases changed, |out|
    {
      out, changed := Round(out);
    }
    NothingMergesAbsorbs(out);
    OuterWideOfAscending(out);
    assert SameCover(parsed, out);
  }

  // ---- what follows for every input ----

  /** The result is determined by the covered addresses and the outermost
      blocks wider than /8, and by nothing else. */
  lemma {:induction false} AggregateDeterminedByCover(a: seq<Cidr>, outA: seq<Cidr>, b: seq<Cidr>, outB: seq<Cidr>)
    requires IsAggregate(a, outA) && IsAggregate(b, outB)
    ensures outA == outB <==> SameCover(a, b) && OuterWide(a) == OuterWide(b)
  {
    AbsorbingUnique(outA, outB, MIN_AGG_BITS);
  }

  /** For inputs no wider than /8 the covered addresses alone decide. */
  lemma {:induction false} AggregateDependsOnlyOnAddresses(a: seq<Cidr>, outA: seq<Cidr>, b: seq<Cidr>, outB: seq<Cidr>)
    requires IsAggregate(a, outA) && IsAggregate(b, outB)
    requires NoWider(a, MIN_AGG_BITS) && NoWider(b, MIN_AGG_BITS)
    ensures outA == outB <==> SameCover(a, b)
  {
    AggregateDeterminedByCover(a, outA, b, outB);
    assert OuterWide(a) == {} == OuterWide(b);
  }

  /** With wider inputs they do not: a /7 stays, its two /8 halves stay two. */
  lemma {:induction false} WideInputsKeepTheirShape(q: Cidr, outA: seq<Cidr>, outB: seq<Cidr>)
    requires q.bits < MIN_AGG_BITS
    requires IsAggregate([q], outA) && IsAggregate([LowerHalf(q), UpperHalf(q)], outB)
    ensures SameCover([q], [LowerHalf(q), UpperHalf(q)]) && outA != outB
  {
    HalvesCover(q);
    assert [q][0] in OuterWide([q]);
    assert q !in OuterWide([LowerHalf(q), UpperHalf(q)]);
    AggregateDeterminedByCover([q], outA, [LowerHalf(q), UpperHalf(q)], outB);
  }

  lemma {:induction false} HalvesCover(q: Cidr)
    requires q.bits < 32
    ensures SameCover([q], [LowerHalf(q), UpperHalf(q)])
  {
    var halves := [LowerHalf(q), UpperHalf(q)];
    forall x ensures Covers([q], x) <==> Covers(halves, x) {
      CoversTail([q], x);
      CoversTail(halves, x);
      CoversTail(halves[1..], x);
    }
  }

  lemma {:induction false} AggregateIdempotent(bs: seq<Cidr>, once: seq<Cidr>, twice: seq<Cidr>)
    requires IsAggregate(bs, once) && IsAggregate(once, twice)
    ensures twice == once
  {
    OuterWideOfAscending(once);
    AbsorbingUnique(once, twice, MIN_AGG_BITS);
  }

  /** Every block of the result is as wide as the covered set allows. */
  lemma {:induction false} AggregateBlocksMaximal(bs: seq<Cidr>, out: seq<Cidr>, i: nat, q: Cidr)
    requires IsAggregate(bs, out) && i < |out|
    requires q.bits >= MIN_AGG_BITS && Inside(out[i], q) && Covered(q, bs)
    ensures q == out[i]
  {
    CoveredTrans(q, bs, out);
    var j :| 0 <= j < |out| && Inside(q, out[j]);
    NestedBothWays(out, i, q, j);
  }

  /** No list of blocks none wider than /8 covers the same addresses with fewer. */
  lemma {:induction false} AggregateFewest(bs: seq<Cidr>, out: seq<Cidr>, other: seq<Cidr>)
    requires IsAggregate(bs, out) && SameCover(bs, other) && NoWider(other, MIN_AGG_BITS)
    ensures |out| <= |other|
  {
    FewestBlocks(out, other, MIN_AGG_BITS);
  }

  // ---- the cap ----

  /** Over budget, keep the `limit` largest blocks; the file is in address order. */
  function Capped(got: seq<Cidr>, limit: nat): seq<Cidr> {
    if |got| > limit then SortBlocks(ByAddress, SortBlocks(BySize, got)[..limit])
    else SortBlocks(ByAddress, got)
  }

  /** In a sorted list without repeats taken from another, the i-th element
      stands at place i or later in that other list. */
  lemma {:induction false} PlaceInSorted(o: Order, part: seq<Cidr>, all: seq<Cidr>, i: nat) returns (k: nat)
    requires Sorted(o, part) && Subsequence.NoRepeats(part) && Sorted(o, all)
    requires forall x :: x in part ==> x in all
    requires i < |part|
    ensures i <= k < |all| && all[k] == part[i]
  {
    assert part[i] in all;
    k :| 0 <= k < |all| && all[k] == part[i];
    if i > 0 {
      var j := PlaceInSorted(o, part, all, i - 1);
      assert Less(o, part[i - 1], part[i]);
    }
  }

  lemma {:induction false} LargerFirst(bs: seq<Cidr>, i: nat, k: nat)
    requires Sorted(BySize, bs) && i <= k < |bs|
    ensures bs[k].Size() <= bs[i].Size()
  {
    if i < k {
      assert !Less(BySize, bs[k], bs[i]);
      Pow2Mono(32 - bs[k].bits, 32 - bs[i].bits);
    }
  }

  /** Sorted by size, the first blocks hold at least as many addresses as any
      equally long or shorter selection. */
  lemma {:induction false} PrefixHoldsMost(part: seq<Cidr>, all: seq<Cidr>, n: nat)
    requires Sorted(BySize, part) && Subsequence.NoRepeats(part) && Sorted(BySize, all)
    requires forall x :: x in part ==> x in all
    requires n <= |part|
    ensures n <= |all| && TotalAddresses(part[..n]) <= TotalAddresses(all[..n])
  {
    if n > 0 {
      PrefixHoldsMost(part, all, n - 1);
      var k := PlaceInSorted(BySize, part, all, n - 1);
      LargerFirst(all, n - 1, k);
      TotalOfPrefix(part, n);
      TotalOfPrefix(all, n);
    }
  }

  lemma {:induction false} InsertNoRepeats(o: Order, b: Cidr, bs: seq<Cidr>)
    requires Sorted(o, bs) && Subsequence.NoRepeats(bs) && b !in bs
    ensures Subsequence.NoRepeats(InsertBlock(o, b, bs))
  {
    if bs != [] && !Less(o, b, bs[0]) {
      SortedUncons(o, bs);
      InsertNoRepeats(o, b, bs[1..]);
      var rest := InsertBlock(o, b, bs[1..]);
      assert bs[0] !in rest;
    }
  }

  lemma {:induction false} SortNoRepeats(o: Order, bs: seq<Cidr>)
    requires Subsequence.NoRepeats(bs)
    ensures Subsequence.NoRepeats(SortBlocks(o, bs))
  {
    if bs != [] {
      SortNoRepeats(o, bs[1..]);
      InsertNoRepeats(o, bs[0], SortBlocks(o, bs[1..]));
    }
  }

  lemma {:induction false} SelectionApart(got: seq<Cidr>, part: seq<Cidr>)
    requires Ascending(got) && Subsequence.NoRepeats(part) && forall x :: x in part ==> x in got
    ensures Apart(part)
  {
    forall i, j | 0 <= i < j < |part| ensures !Meet(part[i], part[j]) {
      assert part[i] in got && part[j] in got;
      var k :| 0 <= k < |got| && got[k] == part[i];
      var l :| 0 <= l < |got| && got[l] == part[j];
      assert k != l;
    }
  }

  lemma {:induction false} SameMembersSameCover(a: seq<Cidr>, b: seq<Cidr>)
    requires forall x :: x in a <==> x in b
    ensures CoverSet(a) == CoverSet(b)
  {
    forall x | x in a ensures InsideSome(x, b) {
      var i :| 0 <= i < |b| && b[i] == x;
      assert Inside(x, b[i]);
    }
    DropContained(a, b);
  }

  lemma {:induction false} TotalMonotone(bs: seq<Cidr>, n: nat, m: nat)
    requires n <= m <= |bs|
    ensures TotalAddresses(bs[..n]) <= TotalAddresses(bs[..m])
    decreases m
  {
    if n < m {
      TotalMonotone(bs, n, m - 1);
      TotalOfPrefix(bs, m);
    }
  }

  lemma {:induction false} SelectionHoldsAtMost(got: seq<Cidr>, limit: nat, choice: seq<Cidr>)
    requires Ascending(got) && limit < |got|
    requires Subsequence.NoRepeats(choice) && |choice| <= limit && forall x :: x in choice ==> x in got
    ensures |CoverSet(choice)| <= TotalAddresses(SortBlocks(BySize, got)[..limit])
  {
    var ranked, mine := SortBlocks(BySize, got), SortBlocks(BySize, choice);
    SortNoRepeats(BySize, choice);
    PrefixHoldsMost(mine, ranked, |mine|);
    assert mine[..|mine|] == mine;
    TotalMonotone(ranked, |mine|, limit);
    SelectionApart(got, mine);
    TotalCountsCover(mine);
    SameMembersSameCover(mine, choice);
  }

  lemma {:induction false} AscendingNoRepeats(bs: seq<Cidr>)
    requires Ascending(bs)
    ensures Subsequence.NoRepeats(bs)
  {
    forall i, j | 0 <= i < j < |bs| ensures bs[i] != bs[j] {
      assert bs[i].End() <= bs[j].base;
    }
  }

  lemma {:induction false} CappedHolds(got: seq<Cidr>, limit: nat)
    requires Ascending(got) && limit < |got|
    ensures |Capped(got, limit)| == limit && forall x :: x in Capped(got, limit) ==> x in got
    ensures |CoverSet(Capped(got, limit))| == TotalAddresses(SortBlocks(BySize, got)[..limit])
  {
    var ranked := SortBlocks(BySize, got);
    var top := ranked[..limit];
    AscendingNoRepeats(got);
    SortNoRepeats(BySize, got);
    assert forall x :: x in top ==> x in ranked;
    SelectionApart(got, top);
    TotalCountsCover(top);
    SameMembersSameCover(top, Capped(got, limit));
  }

  /** The cap keeps the choice of blocks that covers the most addresses. */
  lemma {:induction false} CappedCoversMost(got: seq<Cidr>, limit: nat, choice: seq<Cidr>)
    requires Ascending(got) && limit < |got|
    requires Subsequence.NoRepeats(choice) && |choice| <= limit && forall x :: x in choice ==> x in got
    ensures |Capped(got, limit)| == limit && forall x :: x in Capped(got, limit) ==> x in got
    ensures |CoverSet(choice)| <= |CoverSet(Capped(got, limit))|
  {
    CappedHolds(got, limit);
    SelectionHoldsAtMost(got, limit, choice);
  }

  lemma {:induction false} SortedUnique(o: Order, a: seq<Cidr>, b: seq<Cidr>)
    requires Sorted(o, a) && Sorted(o, b) && Subsequence.NoRepeats(a) && Subsequence.NoRepeats(b)
    requires forall x :: x in a <==> x in b
    ensures a == b
    decreases |a|
  {
    assert b != [] ==> b[0] in b;
    assert a != [] ==> a[0] in a;
    if a != [] && b != [] {
      SortedUncons(o, a);
      SortedUncons(o, b);
      assert a == [a[0]] + a[1..] && b == [b[0]] + b[1..];
      assert a[0] == b[0];
      assert a[0] !in a[1..] && b[0] !in b[1..];
      forall x ensures x in a[1..] <==> x in b[1..] {
        assert x in a[1..] ==> x in a;
        assert x in b[1..] ==> x in b;
      }
      SortedUnique(o, a[1..], b[1..]);
    }
  }

  lemma {:induction false} RankedBefore(ranked: seq<Cidr>, n: nat, x: Cidr, y: Cidr)
    requires Sorted(BySize, ranked) && n <= |ranked|
    requires x in ranked[..n] && y in ranked && y !in ranked[..n]
    ensures x.bits < y.bits || (x.bits == y.bits && x.base < y.base)
  {
    var i :| 0 <= i < n && ranked[i] == x;
    assert ranked == ranked[..n] + ranked[n..];
    var j :| n <= j < |ranked| && ranked[j] == y;
    assert !Less(BySize, ranked[j], ranked[i]);
    assert x != y;
  }

  /** The file holds different blocks in address order; over the cap, every kept
      block is larger than every dropped one, or as large with a lower address. */
  lemma {:induction false} CappedKeepsLargest(got: seq<Cidr>, limit: nat)
    requires Ascending(got)
    ensures var file := Capped(got, limit);
            && |file| == (if |got| > limit then limit else |got|)
            && (forall i, j :: 0 <= i < j < |file| ==> file[i].base < file[j].base)
            && (forall x :: x in file ==> x in got)
            && forall x, y :: x in file && y in got && y !in file ==>
                 x.bits < y.bits || (x.bits == y.bits && x.base < y.base)
  {
    var file, ranked := Capped(got, limit), SortBlocks(BySize, got);
    AscendingNoRepeats(got);
    SortNoRepeats(BySize, got);
    SortNoRepeats(ByAddress, got);
    if |got| > limit {
      var top := ranked[..limit];
      SortNoRepeats(ByAddress, top);
      forall x | x in top ensures x in got { assert x in ranked; }
      forall x, y | x in file && y in got && y !in file ensures x.bits < y.bits || (x.bits == y.bits && x.base < y.base) {
        RankedBefore(ranked, limit, x, y);
      }
    }
    forall i, j | 0 <= i < j < |file| ensures file[i].base < file[j].base {
      assert file[i] in got && file[j] in got && file[i] != file[j];
      assert !Less(ByAddress, file[j], file[i]);
      DifferentBases(got, file[i], file[j]);
    }
  }

  lemma {:induction false} DifferentBases(got: seq<Cidr>, x: Cidr, y: Cidr)
    requires Ascending(got) && x in got && y in got && x != y
    ensures x.base != y.base
  {
    var i :| 0 <= i < |got| && got[i] == x;
    var j :| 0 <= j < |got| && got[j] == y;
    HasBase(x);
    HasBase(y);
    if i < j { assert x.End() <= y.base; } else { assert y.End() <= x.base; }
  }

  /** Below the cap the aggregated list is written unchanged. */
  lemma {:induction false} UncappedUnchanged(got: seq<Cidr>, limit: nat)
    requires Ascending(got) && |got| <= limit
    ensures Capped(got, limit) == got
  {
    AscendingNoRepeats(got);
    SortNoRepeats(ByAddress, got);
    SortedUnique(ByAddress, got, SortBlocks(ByAddress, got));
  }
}
