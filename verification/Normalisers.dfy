/** The two generators' normal forms, compared on the same blocks. */
module Normalisers {
  import opened Blocks
  import Aggregate
  import Ranges

  /** The input lines "a.b.c.d/p" that denote the given blocks. */
  function LinesOf(bs: seq<Cidr>): seq<Aggregate.Line> {
    if bs == [] then []
    else LinesOf(bs[..|bs| - 1]) + [Aggregate.Prefix(bs[|bs| - 1].base, bs[|bs| - 1].bits)]
  }

  lemma {:induction false} LinesDenoteBlocks(bs: seq<Cidr>)
    requires NoWider(bs, 1)
    ensures Aggregate.BlocksOf(LinesOf(bs)) == bs
    decreases |bs|
  {
    if bs != [] {
      var front, b := bs[..|bs| - 1], bs[|bs| - 1];
      LinesDenoteBlocks(front);
      Aggregate.BlocksOfAppend(LinesOf(front), b);
      assert bs == front + [b];
    }
  }

  lemma {:induction false} AbsorbsLess(bs: seq<Cidr>, w: nat)
    requires Absorbs(bs, 1) && w >= 1
    ensures Absorbs(bs, w)
  {
  }

  /** If the merged ranges need no block wider than /8, neither did the input. */
  lemma {:induction false} InputNoWider(bs: seq<Cidr>, out: seq<Cidr>)
    requires Ranges.IsCoalesced(Ranges.SpansOf(Ranges.NetsOf(bs)), out)
    requires NoWider(out, Aggregate.MIN_AGG_BITS)
    ensures NoWider(bs, Aggregate.MIN_AGG_BITS)
  {
    Ranges.CoalesceOfBlocks(bs, out);
    forall i | 0 <= i < |bs| ensures bs[i].bits >= Aggregate.MIN_AGG_BITS {
      var q := if bs[i].bits == 0 then LowerHalf(bs[i]) else bs[i];
      MemberCovered(bs, i);
      CoveredTrans(q, bs, out);
      var j := Host(q, out);
      InsideBits(q, out[j]);
    }
  }

  lemma {:induction false} AgreeIffSameWide(bs: seq<Cidr>, aggregated: seq<Cidr>, coalesced: seq<Cidr>)
    requires NoWider(bs, 1)
    requires Aggregate.IsAggregate(Aggregate.BlocksOf(LinesOf(bs)), aggregated)
    requires Ranges.IsCoalesced(Ranges.SpansOf(Ranges.NetsOf(bs)), coalesced)
    ensures SameCover(bs, coalesced)
    ensures aggregated == coalesced <==> Wide(coalesced, Aggregate.MIN_AGG_BITS) == Aggregate.OuterWide(bs)
  {
    LinesDenoteBlocks(bs);
    Ranges.CoalesceOfBlocks(bs, coalesced);
    AbsorbsLess(coalesced, Aggregate.MIN_AGG_BITS);
    AbsorbingUnique(aggregated, coalesced, Aggregate.MIN_AGG_BITS);
  }

  /** Every block wider than /w that the list covers lies inside one of its
      blocks: no narrower blocks add up to a wide one. */
  ghost predicate NoWideMerge(bs: seq<Cidr>, w: nat) {
    forall q: Cidr :: 1 <= q.bits < w && Covered(q, bs) ==> InsideSome(q, bs)
  }

  /** A wide block of the merged list is one of the inputs, and no other input
      holds it. */
  lemma {:induction false} WideIsOuter(bs: seq<Cidr>, out: seq<Cidr>, q: Cidr)
    requires SameCover(bs, out) && Ascending(out) && Absorbs(out, 1) && NoWider(bs, 1) && NoWider(out, 1)
    requires NoWideMerge(bs, Aggregate.MIN_AGG_BITS) && q in Wide(out, Aggregate.MIN_AGG_BITS)
    ensures q in Aggregate.OuterWide(bs)
  {
    var i: nat :| i < |out| && out[i] == q;
    MemberCovered(out, i);
    CoveredTrans(q, out, bs);
    var j := Host(q, bs);
    forall k: nat | k < |bs| && Inside(q, bs[k]) ensures bs[k] == q { HolderIsSame(bs, out, i, k); }
  }

  /** An input block around a block of the merged list is that block. */
  lemma {:induction false} HolderIsSame(bs: seq<Cidr>, out: seq<Cidr>, i: nat, k: nat)
    requires SameCover(bs, out) && Ascending(out) && Absorbs(out, 1) && NoWider(bs, 1)
    requires i < |out| && k < |bs| && Inside(out[i], bs[k])
    ensures bs[k] == out[i]
  {
    MemberCovered(bs, k);
    CoveredTrans(bs[k], bs, out);
    var m := Host(bs[k], out);
    NestedBothWays(out, i, bs[k], m);
  }

  /** An outermost wide input is a block of the merged list. */
  lemma {:induction false} OuterIsWide(bs: seq<Cidr>, out: seq<Cidr>, q: Cidr)
    requires SameCover(bs, out) && Ascending(out) && Absorbs(out, 1) && NoWider(bs, 1) && NoWider(out, 1)
    requires NoWideMerge(bs, Aggregate.MIN_AGG_BITS) && q in Aggregate.OuterWide(bs)
    ensures q in Wide(out, Aggregate.MIN_AGG_BITS)
  {
    var k: nat :| k < |bs| && bs[k] == q;
    MemberCovered(bs, k);
    CoveredTrans(q, bs, out);
    var m := Host(q, out);
    InsideBits(q, out[m]);
    MemberCovered(out, m);
    CoveredTrans(out[m], out, bs);
    var j := Host(out[m], bs);
    HolderIsSame(bs, out, m, j);
    assert Inside(q, bs[j]);
  }

  /** If the merged list holds the same wide blocks as the input, they were not
      merged from narrower ones. */
  lemma {:induction false} SameWideMeansNoMerge(bs: seq<Cidr>, out: seq<Cidr>, q: Cidr)
    requires SameCover(bs, out) && Absorbs(out, 1)
    requires Wide(out, Aggregate.MIN_AGG_BITS) == Aggregate.OuterWide(bs)
    requires 1 <= q.bits < Aggregate.MIN_AGG_BITS && Covered(q, bs)
    ensures InsideSome(q, bs)
  {
    CoveredTrans(q, bs, out);
    var m := Host(q, out);
    InsideBits(q, out[m]);
    assert out[m] in Aggregate.OuterWide(bs);
  }

  /** Both generators give the same list exactly when no narrower input blocks
      add up to a block wider than /8. */
  lemma {:induction false} AgreeIffNoWideMerge(bs: seq<Cidr>, aggregated: seq<Cidr>, coalesced: seq<Cidr>)
    requires NoWider(bs, 1)
    requires Aggregate.IsAggregate(Aggregate.BlocksOf(LinesOf(bs)), aggregated)
    requires Ranges.IsCoalesced(Ranges.SpansOf(Ranges.NetsOf(bs)), coalesced)
    ensures aggregated == coalesced <==> NoWideMerge(bs, Aggregate.MIN_AGG_BITS)
  {
    var w := Aggregate.MIN_AGG_BITS;
    AgreeIffSameWide(bs, aggregated, coalesced);
    if NoWideMerge(bs, w) {
      forall q | q in Wide(coalesced, w) ensures q in Aggregate.OuterWide(bs) { WideIsOuter(bs, coalesced, q); }
      forall q | q in Aggregate.OuterWide(bs) ensures q in Wide(coalesced, w) { OuterIsWide(bs, coalesced, q); }
    } else if Wide(coalesced, w) == Aggregate.OuterWide(bs) {
      forall q: Cidr | 1 <= q.bits < w && Covered(q, bs) ensures InsideSome(q, bs) {
        SameWideMeansNoMerge(bs, coalesced, q);
      }
    }
  }

  lemma {:induction false} NoneWide(bs: seq<Cidr>, w: nat)
    requires NoWider(bs, w)
    ensures forall b :: b in bs ==> b.bits >= w
  {
  }

  /** Whenever `coalesce` yields no block wider than /8, `aggregateCIDRs` on the
      same blocks yields the same list in the same order. */
  lemma {:induction false} NormalisersAgree(bs: seq<Cidr>, aggregated: seq<Cidr>, coalesced: seq<Cidr>)
    requires Aggregate.IsAggregate(Aggregate.BlocksOf(LinesOf(bs)), aggregated)
    requires Ranges.IsCoalesced(Ranges.SpansOf(Ranges.NetsOf(bs)), coalesced)
    requires NoWider(coalesced, Aggregate.MIN_AGG_BITS)
    ensures aggregated == coalesced
  {
    InputNoWider(bs, coalesced);
    NoneWide(bs, Aggregate.MIN_AGG_BITS);
    NoneWide(coalesced, Aggregate.MIN_AGG_BITS);
    assert Wide(coalesced, Aggregate.MIN_AGG_BITS) == {} == Aggregate.OuterWide(bs);
    AgreeIffSameWide(bs, aggregated, coalesced);
  }
}
