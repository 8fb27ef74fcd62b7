/** The algebra of IPv4 CIDR blocks (RFC 4632, section 3.1) that both list
    generators rely on: aligned blocks are nested or disjoint, and a list of
    disjoint blocks that absorbs every block it covers is both unique and as
    short as possible. */
module Blocks {
  import opened Bits
  import opened Sets

  /** Number of IPv4 addresses. */
  const SPACE: nat := 0x1_0000_0000

  datatype Block = Block(base: nat, bits: nat) {
    function Size(): nat
      requires bits <= 32
    {
      Pow2(32 - bits)
    }

    function End(): nat
      requires bits <= 32
    {
      base + Size()
    }

    /** The network address has no host bits set. */
    predicate Aligned() {
      bits <= 32 && base < SPACE && MultipleOf(base, 32 - bits)
    }
  }

  type Cidr = b: Block | b.Aligned() witness Block(0, 0)

  predicate Has(b: Cidr, x: int) {
    b.base <= x < b.End()
  }

  predicate Inside(inner: Cidr, outer: Cidr) {
    outer.base <= inner.base && inner.End() <= outer.End()
  }

  predicate Meet(a: Cidr, b: Cidr) {
    a.base < b.End() && b.base < a.End()
  }

  ghost predicate Covers(bs: seq<Cidr>, x: int) {
    exists i :: 0 <= i < |bs| && Has(bs[i], x)
  }

  ghost predicate SameCover(a: seq<Cidr>, b: seq<Cidr>) {
    forall x :: Covers(a, x) <==> Covers(b, x)
  }

  /** Every address of q is covered by bs. */
  ghost predicate Covered(q: Cidr, bs: seq<Cidr>) {
    forall x :: Has(q, x) ==> Covers(bs, x)
  }

  /** In address order and pairwise disjoint. */
  ghost predicate Ascending(bs: seq<Cidr>) {
    forall i, j :: 0 <= i < j < |bs| ==> bs[i].End() <= bs[j].base
  }

  /** No block is wider than /w. */
  ghost predicate NoWider(bs: seq<Cidr>, w: nat) {
    forall i :: 0 <= i < |bs| ==> bs[i].bits >= w
  }

  ghost predicate InsideSome(q: Cidr, bs: seq<Cidr>) {
    exists i :: 0 <= i < |bs| && Inside(q, bs[i])
  }

  /** Whatever block of /w or narrower bs covers lies inside one block of bs. */
  ghost predicate Absorbs(bs: seq<Cidr>, w: nat) {
    forall q: Cidr :: q.bits >= w && Covered(q, bs) ==> InsideSome(q, bs)
  }

  // ---- nested or disjoint ----

  lemma {:induction false} SpaceIsPow2()
    ensures SPACE == Pow2(32)
  {
    assert Pow2(8) == 256;
    Pow2Sum(8, 8);
    assert Pow2(16) == 65536;
    Pow2Sum(16, 16);
  }

  lemma {:induction false} EndAligned(b: Cidr, bits: nat)
    requires b.bits <= bits <= 32
    ensures MultipleOf(b.base, 32 - bits) && MultipleOf(b.End(), 32 - bits)
  {
    EndIsMultiple(b.base, 32 - bits, 32 - b.bits);
  }

  lemma {:induction false} EndInSpace(b: Cidr)
    ensures b.End() <= SPACE
  {
    SpaceIsPow2();
    PowerIsMultiple(32 - b.bits, 32);
    MultipleGap(b.base, SPACE, 32 - b.bits);
  }

  /** Two blocks that share an address are nested, the longer prefix inside. */
  lemma {:induction false} Laminar(a: Cidr, b: Cidr)
    requires a.bits <= b.bits && Meet(a, b)
    ensures Inside(b, a)
  {
    EndAligned(a, b.bits);
    EndAligned(b, b.bits);
    if b.base < a.base { MultipleGap(b.base, a.base, 32 - b.bits); }
    if a.End() < b.End() { MultipleGap(a.End(), b.End(), 32 - b.bits); }
  }

  lemma {:induction false} InsideBits(inner: Cidr, outer: Cidr)
    requires Inside(inner, outer)
    ensures outer.bits <= inner.bits
    ensures outer.bits == inner.bits ==> inner == outer
  {
    SizeOrder(32 - inner.bits, 32 - outer.bits, inner.base, outer.base);
  }

  lemma {:induction false} SizeOrder(k: nat, m: nat, u: int, v: int)
    requires v <= u && u + Pow2(k) <= v + Pow2(m)
    ensures k <= m && (k == m ==> u == v)
  {
    Pow2Order(k, m);
  }

  function LowerHalf(q: Cidr): (h: Cidr)
    requires q.bits < 32
    ensures h.base == q.base && h.bits == q.bits + 1 && 2 * h.Size() == q.Size()
  {
    MultipleOfLess(q.base, 31 - q.bits, 32 - q.bits);
    Block(q.base, q.bits + 1)
  }

  function UpperHalf(q: Cidr): (h: Cidr)
    requires q.bits < 32
    ensures h.base == q.base + h.Size() && h.bits == q.bits + 1 && h.End() == q.End()
  {
    UpperHalfAligned(q);
    Block(q.base + Pow2(31 - q.bits), q.bits + 1)
  }

  lemma {:induction false} UpperHalfAligned(q: Cidr)
    requires q.bits < 32
    ensures Block(q.base + Pow2(31 - q.bits), q.bits + 1).Aligned()
    ensures q.Size() == 2 * Pow2(31 - q.bits)
  {
    EndInSpace(q);
    MiddleIsMultiple(q.base, 31 - q.bits);
  }

  /** A block wider than a half it meets contains the whole. */
  lemma {:induction false} WiderThanHalf(h: Cidr, q: Cidr, b: Cidr)
    requires Inside(h, q) && h.bits == q.bits + 1 && Inside(h, b) && b != h
    ensures Inside(q, b)
  {
    InsideBits(h, b);
    Laminar(b, q);
  }

  lemma {:induction false} HasBase(b: Cidr)
    ensures Has(b, b.base)
  {
  }

  lemma {:induction false} CoveredTrans(q: Cidr, a: seq<Cidr>, b: seq<Cidr>)
    requires Covered(q, a) && SameCover(a, b)
    ensures Covered(q, b)
  {
  }

  lemma {:induction false} MemberCovered(bs: seq<Cidr>, i: nat)
    requires i < |bs|
    ensures Covered(bs[i], bs)
  {
  }

  // ---- network masks ----

  /** The 32-bit network mask of a prefix length. */
  function Mask(bits: nat): nat
    requires bits <= 32
  {
    SpaceIsPow2();
    Pow2Mono(32 - bits, 32);
    SPACE - Pow2(32 - bits)
  }

  lemma {:induction false} MaskClears(addr: nat, bits: nat)
    requires addr < SPACE && bits <= 32
    ensures And(addr, Mask(bits)) == addr - Low(addr, 32 - bits)
  {
    SpaceIsPow2();
    AndMask(addr, Mask(bits), 32, 32 - bits);
  }

  lemma {:induction false} ClearedIsBlock(addr: nat, bits: nat)
    requires addr < SPACE && bits <= 32
    ensures Block(addr - Low(addr, 32 - bits), bits).Aligned()
    ensures Has(Block(addr - Low(addr, 32 - bits), bits), addr)
  {
    var k := 32 - bits;
    ClearedIsMultiple(addr, k);
    assert addr - Low(addr, k) <= addr < addr - Low(addr, k) + Pow2(k);
  }

  /** The block an "a.b.c.d/p" line denotes, host bits cleared. */
  function BlockOf(addr: nat, bits: nat): (b: Cidr)
    requires addr < SPACE && bits <= 32
    ensures b.bits == bits && Has(b, addr)
  {
    MaskClears(addr, bits);
    ClearedIsBlock(addr, bits);
    Block(And(addr, Mask(bits)), bits)
  }

  lemma {:induction false} BlockOfItself(b: Cidr)
    ensures BlockOf(b.base, b.bits) == b
  {
    var base := BlockOf(b.base, b.bits).base;
    assert base == b.base by { MaskClears(b.base, b.bits); }
  }

  // ---- absorbing lists are unique and shortest ----

  lemma {:induction false} SameBlockIfNested(bs: seq<Cidr>, i: nat, j: nat)
    requires Ascending(bs) && i < |bs| && j < |bs| && Inside(bs[i], bs[j])
    ensures i == j
  {
  }

  lemma {:induction false} Host(q: Cidr, bs: seq<Cidr>) returns (i: nat)
    requires InsideSome(q, bs)
    ensures i < |bs| && Inside(q, bs[i])
  {
    i :| 0 <= i < |bs| && Inside(q, bs[i]);
  }

  /** Each block of an ascending list is found again in any other such list
      that covers the same addresses and absorbs its blocks in turn. */
  lemma {:induction false} FoundIn(a: seq<Cidr>, b: seq<Cidr>, i: nat)
    requires Ascending(a) && i < |a|
    requires forall k :: 0 <= k < |a| ==> InsideSome(a[k], b)
    requires forall k :: 0 <= k < |b| ==> InsideSome(b[k], a)
    ensures a[i] in b
  {
    var j := Host(a[i], b);
    var k := Host(b[j], a);
    NestedBothWays(a, i, b[j], k);
  }

  lemma {:induction false} NestedBothWays(a: seq<Cidr>, i: nat, b: Cidr, k: nat)
    requires Ascending(a) && i < |a| && k < |a| && Inside(a[i], b) && Inside(b, a[k])
    ensures a[i] == b
  {
    SameBlockIfNested(a, i, k);
    InsideBits(a[i], b);
    InsideBits(b, a[i]);
  }

  lemma {:induction false} AscendingTail(bs: seq<Cidr>)
    requires Ascending(bs) && |bs| > 0
    ensures Ascending(bs[1..])
    ensures forall b :: b in bs[1..] ==> bs[0].End() <= b.base
  {
  }

  /** Ascending lists with the same members are the same list. */
  lemma {:induction false} AscendingUnique(a: seq<Cidr>, b: seq<Cidr>)
    requires Ascending(a) && Ascending(b)
    requires forall x :: x in a <==> x in b
    ensures a == b
    decreases |a|
  {
    assert b != [] ==> b[0] in b;
    assert a != [] ==> a[0] in a;
    if a != [] && b != [] {
      AscendingTail(a);
      AscendingTail(b);
      assert a == [a[0]] + a[1..] && b == [b[0]] + b[1..];
      assert a[0] == b[0];
      forall x ensures x in a[1..] <==> x in b[1..] {
        if x in a[1..] { assert x in a; }
        if x in b[1..] { assert x in b; }
      }
      AscendingUnique(a[1..], b[1..]);
    }
  }

  lemma {:induction false} MembersFoundIn(a: seq<Cidr>, b: seq<Cidr>)
    requires Ascending(a)
    requires forall k :: 0 <= k < |a| ==> InsideSome(a[k], b)
    requires forall k :: 0 <= k < |b| ==> InsideSome(b[k], a)
    ensures forall x :: x in a ==> x in b
  {
    forall i | 0 <= i < |a| ensures a[i] in b { FoundIn(a, b, i); }
  }

  lemma {:induction false} MutualNestingUnique(a: seq<Cidr>, b: seq<Cidr>)
    requires Ascending(a) && Ascending(b)
    requires forall k :: 0 <= k < |a| ==> InsideSome(a[k], b)
    requires forall k :: 0 <= k < |b| ==> InsideSome(b[k], a)
    ensures a == b
  {
    MembersFoundIn(a, b);
    MembersFoundIn(b, a);
    AscendingUnique(a, b);
  }

  /** The blocks wider than /w. */
  ghost function Wide(bs: seq<Cidr>, w: nat): set<Cidr> {
    set b | b in bs && b.bits < w
  }

  lemma {:induction false} NestsInto(a: seq<Cidr>, b: seq<Cidr>, w: nat)
    requires Absorbs(b, w) && SameCover(a, b) && Wide(a, w) <= Wide(b, w)
    ensures forall k :: 0 <= k < |a| ==> InsideSome(a[k], b)
  {
    forall k | 0 <= k < |a| ensures InsideSome(a[k], b) {
      if a[k].bits >= w {
        MemberCovered(a, k);
        CoveredTrans(a[k], a, b);
      } else {
        assert a[k] in Wide(a, w);
        var j :| 0 <= j < |b| && b[j] == a[k];
        assert Inside(a[k], b[j]);
      }
    }
  }

  /** Two ascending lists that absorb what they cover are equal exactly when
      they cover the same addresses and agree on the blocks wider than /w. */
  lemma {:induction false} AbsorbingUnique(a: seq<Cidr>, b: seq<Cidr>, w: nat)
    requires Ascending(a) && Ascending(b) && Absorbs(a, w) && Absorbs(b, w)
    ensures a == b <==> SameCover(a, b) && Wide(a, w) == Wide(b, w)
  {
    if SameCover(a, b) && Wide(a, w) == Wide(b, w) {
      NestsInto(a, b, w);
      NestsInto(b, a, w);
      MutualNestingUnique(a, b);
    }
  }

  function Below(n: nat): (r: set<nat>)
    ensures |r| == n && forall i: nat :: i in r <==> i < n
  {
    if n == 0 then {} else Below(n - 1) + {n - 1}
  }

  function Elements(f: seq<nat>): (r: set<nat>)
    requires forall i, j :: 0 <= i < j < |f| ==> f[i] != f[j]
    ensures |r| == |f| && forall x :: x in r <==> x in f
  {
    if f == [] then {} else Elements(f[1..]) + {f[0]}
  }

  /** An injective choice of indices bounds the length of one list by another. */
  lemma {:induction false} Pigeonhole(f: seq<nat>, n: nat)
    requires forall i :: 0 <= i < |f| ==> f[i] < n
    requires forall i, j :: 0 <= i < j < |f| ==> f[i] != f[j]
    ensures |f| <= n
  {
    SubsetSize(Elements(f), Below(n));
  }

  /** A block of cs that lies inside bs[i], when cs covers what bs covers. */
  lemma {:induction false} Representative(bs: seq<Cidr>, cs: seq<Cidr>, w: nat, i: nat) returns (k: nat)
    requires Ascending(bs) && Absorbs(bs, w) && SameCover(bs, cs) && NoWider(cs, w) && i < |bs|
    ensures k < |cs| && Inside(cs[k], bs[i])
  {
    HasBase(bs[i]);
    assert Covers(bs, bs[i].base);
    k :| 0 <= k < |cs| && Has(cs[k], bs[i].base);
    MemberCovered(cs, k);
    CoveredTrans(cs[k], cs, bs);
    var j :| 0 <= j < |bs| && Inside(cs[k], bs[j]);
    assert j == i;
  }

  /** No list of blocks none wider than /w covers the same addresses with
      fewer blocks than an ascending list that absorbs what it covers. */
  lemma {:induction false} FewestBlocks(bs: seq<Cidr>, cs: seq<Cidr>, w: nat)
    requires Ascending(bs) && Absorbs(bs, w)
    requires SameCover(bs, cs) && NoWider(cs, w)
    ensures |bs| <= |cs|
  {
    var f := ChooseRepresentatives(bs, cs, w, |bs|);
    Pigeonhole(f, |cs|);
  }

  lemma {:induction false} ChooseRepresentatives(bs: seq<Cidr>, cs: seq<Cidr>, w: nat, n: nat) returns (f: seq<nat>)
    requires Ascending(bs) && Absorbs(bs, w)
    requires SameCover(bs, cs) && NoWider(cs, w) && n <= |bs|
    ensures |f| == n
    ensures forall i :: 0 <= i < n ==> f[i] < |cs| && Inside(cs[f[i]], bs[i])
    ensures forall i, j :: 0 <= i < j < n ==> f[i] != f[j]
  {
    f := [];
    if n > 0 {
      f := ChooseRepresentatives(bs, cs, w, n - 1);
      var k := Representative(bs, cs, w, n - 1);
      f := f + [k];
    }
  }

  // ---- counting addresses ----

  /** The addresses bs covers, as a set. */
  ghost function CoverSet(bs: seq<Cidr>): set<int> {
    set x | 0 <= x < SPACE && Covers(bs, x)
  }

  /** The sum of the block sizes. */
  function TotalAddresses(bs: seq<Cidr>): nat {
    if bs == [] then 0 else bs[0].Size() + TotalAddresses(bs[1..])
  }

  ghost predicate Apart(bs: seq<Cidr>) {
    forall i, j :: 0 <= i < j < |bs| ==> !Meet(bs[i], bs[j])
  }

  lemma {:induction false} CoversCons(b: Cidr, bs: seq<Cidr>, x: int)
    ensures Covers([b] + bs, x) <==> Has(b, x) || Covers(bs, x)
  {
    var all := [b] + bs;
    if Has(b, x) { assert Has(all[0], x); }
    if Covers(bs, x) {
      var i :| 0 <= i < |bs| && Has(bs[i], x);
      assert Has(all[i + 1], x);
    }
    if Covers(all, x) {
      var i :| 0 <= i < |all| && Has(all[i], x);
      if i > 0 { assert Has(bs[i - 1], x); }
    }
  }

  lemma {:induction false} CoversTail(bs: seq<Cidr>, x: int)
    requires bs != []
    ensures Covers(bs, x) <==> Has(bs[0], x) || Covers(bs[1..], x)
  {
    assert bs == [bs[0]] + bs[1..];
    CoversCons(bs[0], bs[1..], x);
  }

  lemma {:induction false} CoverSetCons(bs: seq<Cidr>) returns (first: set<int>)
    requires bs != []
    ensures |first| == bs[0].Size() && forall x :: x in first <==> Has(bs[0], x)
    ensures CoverSet(bs) == first + CoverSet(bs[1..])
  {
    EndInSpace(bs[0]);
    first := Interval(bs[0].base, bs[0].End());
    forall x ensures Covers(bs, x) <==> Has(bs[0], x) || Covers(bs[1..], x) { CoversTail(bs, x); }
  }

  /** On blocks that do not overlap the sum of sizes counts each address once. */
  lemma {:induction false} TotalCountsCover(bs: seq<Cidr>)
    requires Apart(bs)
    ensures TotalAddresses(bs) == |CoverSet(bs)|
    decreases |bs|
  {
    if bs == [] {
      assert CoverSet(bs) == {};
    } else {
      var first := CoverSetCons(bs);
      ApartFromTail(bs);
      assert first !! CoverSet(bs[1..]);
      TotalCountsCover(bs[1..]);
    }
  }

  lemma {:induction false} ApartFromTail(bs: seq<Cidr>)
    requires Apart(bs) && bs != []
    ensures forall x :: Has(bs[0], x) ==> !Covers(bs[1..], x)
  {
    forall x | Covers(bs[1..], x) ensures !Has(bs[0], x) {
      var i :| 0 <= i < |bs[1..]| && Has(bs[1..][i], x);
      assert Has(bs[i + 1], x) && !Meet(bs[0], bs[i + 1]);
    }
  }

  lemma {:induction false} TotalOfConcat(a: seq<Cidr>, b: seq<Cidr>)
    ensures TotalAddresses(a + b) == TotalAddresses(a) + TotalAddresses(b)
  {
    if a == [] {
      assert a + b == b;
    } else {
      TotalOfConcat(a[1..], b);
      assert (a + b)[1..] == a[1..] + b;
    }
  }

  lemma {:induction false} TotalOfPrefix(bs: seq<Cidr>, n: nat)
    requires 0 < n <= |bs|
    ensures TotalAddresses(bs[..n]) == TotalAddresses(bs[..n - 1]) + bs[n - 1].Size()
  {
    assert bs[..n] == bs[..n - 1] + [bs[n - 1]];
    TotalOfConcat(bs[..n - 1], [bs[n - 1]]);
  }
}
