/** cmd/georanges-gen: turning address ranges into CIDR blocks. */
module Ranges {
  import opened Bits
  import opened Blocks
  import opened Sets

  const WORD64: nat := 0x1_0000_0000_0000_0000

  function Wrap64(x: nat): nat {
    x % WORD64
  }

  lemma {:induction false} WrapSum(a: nat, b: nat)
    ensures Wrap64(Wrap64(a) + b) == Wrap64(a + b)
  {
    var q := a / WORD64;
    assert a == q * WORD64 + Wrap64(a);
    assert a + b == q * WORD64 + (Wrap64(a) + b);
  }

  /** uint32 addition wraps past 255.255.255.255. */
  function Wrap32(x: nat): nat {
    x % SPACE
  }

  /** The largest block that starts at an address this aligned and fits what is left. */
  function BlockSize(start: nat, count: nat): nat
    requires start < SPACE && count > 0
  {
    SpaceIsPow2();
    LenBounds(count);
    var widest := Pow2(31);
    var aligned :=
      if start == 0 then widest
      else
        var align := And(start, Neg(start, 32));
        if align < widest then align else widest;
    var fit := Pow2(Len(count) - 1);
    if fit < aligned then fit else aligned
  }

  /** The exponent `BlockSize` settles on. */
  function BlockExponent(start: nat, count: nat): nat
    requires count > 0
  {
    LenBounds(count);
    var align := if start == 0 then 31 else TrailingZeros(start);
    if Len(count) - 1 < align then Len(count) - 1 else align
  }

  lemma {:induction false} TrailingZerosBelow32(x: nat)
    requires 0 < x < SPACE
    ensures TrailingZeros(x) <= 31 && x + LowBit(x) <= SPACE
  {
    var k := TrailingZeros(x);
    SpaceIsPow2();
    TrailingZerosDivide(x, k);
    if k > 31 { Pow2Mono(32, k); }
    PowerIsMultiple(k, 32);
    MultipleGap(x, SPACE, k);
  }

  lemma {:induction false} SizeIsPower(start: nat, count: nat)
    requires start < SPACE && count > 0
    ensures BlockSize(start, count) == Pow2(BlockExponent(start, count))
    ensures BlockExponent(start, count) <= 31
    ensures BlockExponent(start, count) < Len(count)
    ensures start > 0 ==> BlockExponent(start, count) <= TrailingZeros(start)
    ensures BlockSize(start, count) <= count
  {
    SpaceIsPow2();
    LenBounds(count);
    var fit := Len(count) - 1;
    if start > 0 {
      AndNegIsLowBit(start, 32);
      TrailingZerosBelow32(start);
      ComparePowers(TrailingZeros(start), 31);
      ComparePowers(fit, TrailingZeros(start));
      ComparePowers(fit, 31);
    } else {
      ComparePowers(fit, 31);
    }
    if BlockExponent(start, count) < fit { Pow2Mono(BlockExponent(start, count), fit); }
  }

  lemma {:induction false} ComparePowers(a: nat, b: nat)
    ensures Pow2(a) < Pow2(b) <==> a < b
  {
    if a < b { Pow2Mono(a, b - 1); } else { Pow2Mono(b, a); }
  }

  lemma {:induction false} NextBlockAligned(start: nat, k: nat)
    requires start < SPACE && k <= 31 && (start > 0 ==> k <= TrailingZeros(start))
    ensures Block(start, 32 - k).Aligned()
    ensures start + Pow2(k) <= SPACE
  {
    if start > 0 {
      TrailingZerosDivide(start, k);
    } else {
      ZeroIsMultiple(k);
    }
    assert MultipleOf(start, k);
    AlignedEnds(start, k);
  }

  lemma {:induction false} AlignedEnds(start: nat, k: nat)
    requires start < SPACE && k <= 31 && MultipleOf(start, k)
    ensures start + Pow2(k) <= SPACE
  {
    EndInSpace(Block(start, 32 - k));
  }

  lemma {:induction false} ZeroIsMultiple(k: nat)
    ensures MultipleOf(0, k)
  {
    if k > 0 { ZeroIsMultiple(k - 1); }
  }

  /** The block one iteration of the loop emits. */
  function NextBlock(start: nat, count: nat): (b: Cidr)
    requires start < SPACE && count > 0
    ensures b.base == start && b.Size() == BlockSize(start, count) <= count
    ensures 1 <= b.bits && b.bits == 32 - BlockExponent(start, count)
  {
    SizeIsPower(start, count);
    NextBlockAligned(start, BlockExponent(start, count));
    TrailingZerosOfPow2(BlockExponent(start, count));
    Block(start, 32 - TrailingZeros(BlockSize(start, count)))
  }

  /** Where the range ends: at start + count, or where addresses end. */
  function RangeEnd(start: nat, count: nat): nat {
    if start + count < SPACE then start + count else SPACE
  }

  /** `out` covers exactly [lo, pos) with ordered, disjoint blocks, and no
      aligned block of [lo, hi) straddles or exceeds one of them. */
  ghost predicate SplitTo(lo: nat, pos: nat, hi: nat, out: seq<Cidr>) {
    && Ascending(out)
    && NoWider(out, 1)
    && (forall x :: Covers(out, x) <==> lo <= x < pos)
    && (forall i :: 0 <= i < |out| ==> Maximal(out[i], lo, hi))
  }

  ghost predicate IsSplit(lo: nat, hi: nat, out: seq<Cidr>) {
    SplitTo(lo, hi, hi, out)
  }

  ghost predicate Maximal(b: Cidr, lo: nat, hi: nat) {
    forall q: Cidr :: Fits(q, lo, hi) && Meet(q, b) ==> Inside(q, b)
  }

  ghost predicate Fits(q: Cidr, lo: nat, hi: nat) {
    q.bits >= 1 && lo <= q.base && q.End() <= hi
  }

  /** Growing: every block so far was limited by the alignment of its start. */
  ghost predicate Growing(first: nat, start: nat, emitted: nat) {
    start > 0 ==>
      && emitted <= TrailingZeros(start)
      && (start == first || start - first < LowBit(start) || TrailingZeros(start) == 31)
  }

  /** Shrinking: what is left is smaller than the alignment of its start. */
  ghost predicate Shrinking(start: nat, count: nat, emitted: nat) {
    start > 0 && Len(count) <= TrailingZeros(start) && emitted + Len(count) <= 62
  }

  ghost predicate Phase(first: nat, start: nat, count: nat, emitted: nat) {
    first <= start < SPACE && (Growing(first, start, emitted) || Shrinking(start, count, emitted))
  }

  lemma {:induction false} AddLowBit(x: nat)
    requires x > 0
    ensures MultipleOf(x + LowBit(x), TrailingZeros(x) + 1)
  {
    if x % 2 == 0 {
      AddLowBit(x / 2);
      assert (x + LowBit(x)) / 2 == x / 2 + LowBit(x / 2);
    }
  }

  lemma {:induction false} LenShrinks(count: nat, k: nat)
    requires count > 0 && k == Len(count) - 1
    ensures Pow2(k) <= count && Len(count - Pow2(k)) <= k
  {
    LenBounds(count);
    var rest := count - Pow2(k);
    if rest > 0 {
      LenBounds(rest);
      ComparePowers(Len(rest) - 1, k);
    }
  }

  /** A block limited by what is left leaves the loop shrinking. */
  lemma {:induction false} FitStep(first: nat, start: nat, count: nat, emitted: nat)
    requires Phase(first, start, count, emitted) && count > 0
    requires start > 0 ==> Len(count) <= TrailingZeros(start)
    requires start == 0 ==> Len(count) <= 31 && emitted == 0
    ensures var k := Len(count) - 1;
            Pow2(k) <= count && start + Pow2(k) < SPACE && Shrinking(start + Pow2(k), count - Pow2(k), emitted + 1)
  {
    LenBounds(count);
    var k := Len(count) - 1;
    StepUp(start, k);
    assert emitted + Len(count) <= 62;
    LenShrinks(count, k);
  }

  /** A step to the next multiple of a power below the start's alignment. */
  lemma {:induction false} StepUp(start: nat, k: nat)
    requires start < SPACE && if start > 0 then k < TrailingZeros(start) else k <= 30
    ensures start + Pow2(k) < SPACE && k <= TrailingZeros(start + Pow2(k))
    ensures start > 0 ==> TrailingZeros(start) <= 31
  {
    if start > 0 {
      TrailingZerosBelow32(start);
      TrailingZerosDivide(start, k);
      ComparePowers(k, TrailingZeros(start));
    } else {
      SpaceIsPow2();
      ZeroIsMultiple(k);
      ComparePowers(k, 32);
    }
    EndIsMultiple(start, k, k);
    TrailingZerosDivide(start + Pow2(k), k);
  }

  /** A block limited by its alignment leaves the loop growing. */
  lemma {:induction false} AlignStep(first: nat, start: nat, emitted: nat)
    requires first <= start < SPACE && start > 0 && Growing(first, start, emitted)
    ensures start + LowBit(start) <= SPACE && emitted < 62
    ensures start + LowBit(start) < SPACE ==> Growing(first, start + LowBit(start), emitted + 1)
  {
    var k := TrailingZeros(start);
    var next := start + LowBit(start);
    SpaceIsPow2();
    TrailingZerosBelow32(start);
    AddLowBit(start);
    TrailingZerosDivide(next, k + 1);
    Pow2Mono(k + 1, TrailingZeros(next));
    if k == 31 { TrailingZerosDivide(start, 0); }
  }

  lemma {:induction false} PhaseStep(first: nat, start: nat, count: nat, emitted: nat)
    requires Phase(first, start, count, emitted) && count > 0
    requires start == 0 ==> emitted == 0
    ensures emitted < 62
    ensures var size := BlockSize(start, count);
            size <= count && start + size <= SPACE
            && (start + size < SPACE ==> Phase(first, start + size, count - size, emitted + 1))
  {
    SpaceIsPow2();
    SizeIsPower(start, count);
    LenBounds(count);
    var align := if start == 0 then 31 else TrailingZeros(start);
    if Len(count) - 1 < align {
      FitStep(first, start, count, emitted);
    } else {
      if start > 0 {
        AlignStep(first, start, emitted);
      } else {
        TrailingZerosOfPow2(31);
        ComparePowers(31, 32);
      }
    }
  }

  /** A wider block around an aligned start reaches past twice the fit. */
  lemma {:induction false} WiderReaches(start: nat, k: nat, q: Cidr)
    requires q.bits < 32 - k && start < q.End() && (start > 0 ==> k < TrailingZeros(start))
    ensures start + Pow2(k + 1) <= q.End()
  {
    EndAligned(q, 31 - k);
    if start > 0 { TrailingZerosDivide(start, k + 1); } else { ZeroIsMultiple(k + 1); }
    MultipleGap(start, q.End(), k + 1);
  }

  /** A wider block around a start this aligned begins a whole step earlier. */
  lemma {:induction false} WiderStartsEarlier(start: nat, q: Cidr)
    requires 0 < start < SPACE && q.bits < 32 - TrailingZeros(start) && q.base <= start
    ensures q.base + LowBit(start) <= start
  {
    var k := TrailingZeros(start);
    EndAligned(q, 31 - k);
    TrailingZerosDivide(start, k);
    TrailingZerosDivide(start, k + 1);
    MultipleOfLess(q.base, k, k + 1);
    MultipleGap(q.base, start, k);
  }

  /** No block of the range exceeds or straddles the one the loop emits next. */
  lemma {:induction false} NextBlockMaximal(first: nat, start: nat, count: nat, emitted: nat, q: Cidr)
    requires Phase(first, start, count, emitted) && count > 0
    requires Fits(q, first, RangeEnd(start, count)) && Meet(q, NextBlock(start, count))
    ensures Inside(q, NextBlock(start, count))
  {
    var b := NextBlock(start, count);
    SizeIsPower(start, count);
    if b.bits <= q.bits {
      Laminar(b, q);
    } else {
      Laminar(q, b);
      LenBounds(count);
      var k := 32 - b.bits;
      if start == 0 || k < TrailingZeros(start) {
        WiderReaches(start, k, q);
      } else {
        WiderStartsEarlier(start, q);
      }
    }
  }

  lemma {:induction false} CoversAppend(bs: seq<Cidr>, b: Cidr, x: int)
    ensures Covers(bs + [b], x) <==> Covers(bs, x) || Has(b, x)
  {
    var all := bs + [b];
    if Covers(bs, x) {
      var i :| 0 <= i < |bs| && Has(bs[i], x);
      assert Has(all[i], x);
    }
    if Has(b, x) { assert Has(all[|bs|], x); }
    if Covers(all, x) {
      var i :| 0 <= i < |all| && Has(all[i], x);
      if i < |bs| { assert Has(bs[i], x); }
    }
  }

  /** Every block ends before the first address it must not cover. */
  lemma {:induction false} BlocksEndBefore(bs: seq<Cidr>, pos: nat)
    requires forall x :: Covers(bs, x) ==> x < pos
    ensures forall i :: 0 <= i < |bs| ==> bs[i].End() <= pos
  {
    forall i | 0 <= i < |bs| ensures bs[i].End() <= pos {
      assert Has(bs[i], bs[i].End() - 1);
      assert Covers(bs, bs[i].End() - 1);
    }
  }

  lemma {:induction false} SplitStep(first: nat, start: nat, count: nat, out: seq<Cidr>)
    requires Phase(first, start, count, |out|) && count > 0
    requires SplitTo(first, start, RangeEnd(start, count), out)
    ensures SplitTo(first, start + BlockSize(start, count), RangeEnd(start, count), out + [NextBlock(start, count)])
  {
    var b := NextBlock(start, count);
    BlocksEndBefore(out, start);
    forall x ensures Covers(out + [b], x) <==> first <= x < start + BlockSize(start, count) {
      CoversAppend(out, b, x);
    }
    forall q: Cidr | Fits(q, first, RangeEnd(start, count)) && Meet(q, b) ensures Inside(q, b) {
      NextBlockMaximal(first, start, count, |out|, q);
    }
  }

  ghost predicate LoopInvariant(first: nat, length: nat, start: nat, count: nat, out: seq<Cidr>) {
    && Phase(first, start, count, |out|) && |out| <= 62
    && start + count == first + length
    && (start == 0 ==> out == [])
    && SplitTo(first, start, RangeEnd(start, count), out)
  }

  lemma {:induction false} LoopStep(first: nat, length: nat, start: nat, count: nat, out: seq<Cidr>)
    requires LoopInvariant(first, length, start, count, out) && count > 0
    ensures var size, out' := NextBlock(start, count).Size(), out + [NextBlock(start, count)];
            && 0 < size <= count && start + size <= SPACE && |out'| <= 62
            && (start + size < SPACE ==> LoopInvariant(first, length, start + size, count - size, out'))
            && (start + size == SPACE || size == count ==> IsSplit(first, RangeEnd(first, length), out'))
  {
    SizeIsPower(start, count);
    PhaseStep(first, start, count, |out|);
    SplitStep(first, start, count, out);
  }

  lemma {:induction false} WrapAtEnd(x: nat)
    requires x <= SPACE
    ensures Wrap32(x) == if x == SPACE then 0 else x
  {
  }

  /** One iteration: the next block's size, and the list with it appended. */
  method EmitBlock(start: nat, count: nat, out: seq<Cidr>, ghost first: nat, ghost length: nat)
      returns (size: nat, out': seq<Cidr>)
    requires LoopInvariant(first, length, start, count, out) && count > 0
    ensures 0 < size <= count && start + size <= SPACE && |out'| <= 62
    ensures start + size < SPACE ==> LoopInvariant(first, length, start + size, count - size, out')
    ensures start + size == SPACE || size == count ==> IsSplit(first, RangeEnd(first, length), out')
  {
    LoopStep(first, length, start, count, out);
    var b := NextBlock(start, count);
    size := b.Size();
    out' := out + [b];
  }

  /** `cidrsForRange`: the aligned blocks of [first, first + length), cut off
      where addresses end. */
  method CidrsForRange(first: nat, length: nat) returns (out: seq<Cidr>)
    requires first < SPACE && length < WORD64
    ensures IsSplit(first, RangeEnd(first, length), out)
    ensures |out| <= 62
  {
    out := [];
    var start, count := first, length;
    while count > 0
      invariant count > 0 ==> LoopInvariant(first, length, start, count, out)
      invariant |out| <= 62 && (count == 0 ==> IsSplit(first, RangeEnd(first, length), out))
      decreases count
    {
      var size, out' := EmitBlock(start, count, out, first, length);
      WrapAtEnd(start + size);
      out := out';
      start := Wrap32(start + size);
      count := count - size;
      if start == 0 {
        break;
      }
    }
  }

  /** The blocks of a range cannot be fewer. */
  lemma {:induction false} SplitFewest(lo: nat, hi: nat, out: seq<Cidr>, other: seq<Cidr>)
    requires lo <= hi <= SPACE && IsSplit(lo, hi, out)
    requires NoWider(other, 1) && forall x :: Covers(other, x) <==> lo <= x < hi
    ensures |out| <= |other|
  {
    assert SameCover(out, other);
    forall q: Cidr | q.bits >= 1 && Covered(q, out) ensures InsideSome(q, out) { SplitAbsorbs(lo, hi, out, q); }
    FewestBlocks(out, other, 1);
  }

  lemma {:induction false} SplitAbsorbs(lo: nat, hi: nat, out: seq<Cidr>, q: Cidr)
    requires IsSplit(lo, hi, out) && q.bits >= 1 && Covered(q, out)
    ensures InsideSome(q, out)
  {
    HasBase(q);
    assert Has(q, q.End() - 1);
    var i :| 0 <= i < |out| && Has(out[i], q.base);
    assert Maximal(out[i], lo, hi) && Fits(q, lo, hi) && Meet(q, out[i]);
  }

  // ---- coalesce ----

  /** A network of the input; only those with an IPv4 address and a 32-bit mask count. */
  datatype Net = NotIPv4 | IPv4(addr: nat, ones: nat)

  predicate WellFormed(n: Net) {
    n.IPv4? ==> n.addr < SPACE && n.ones <= 32
  }

  /** Both ends inclusive, in 64-bit arithmetic. */
  datatype Span = Span(start: nat, end: nat)

  predicate ValidSpan(s: Span) {
    s.start < SPACE && s.start <= s.end < 2 * SPACE
  }

  predicate InSpan(s: Span, x: int) {
    s.start <= x <= s.end
  }

  ghost predicate InSpans(spans: seq<Span>, x: int) {
    exists i :: 0 <= i < |spans| && InSpan(spans[i], x)
  }

  ghost predicate ValidSpans(spans: seq<Span>) {
    forall i :: 0 <= i < |spans| ==> ValidSpan(spans[i])
  }

  function SpanOf(n: Net): (s: Span)
    requires n.IPv4? && WellFormed(n)
    ensures ValidSpan(s)
  {
    SpaceIsPow2();
    Pow2Mono(32 - n.ones, 32);
    Span(n.addr, n.addr + Pow2(32 - n.ones) - 1)
  }

  function SpansOf(nets: seq<Net>): (r: seq<Span>)
    requires forall i :: 0 <= i < |nets| ==> WellFormed(nets[i])
    ensures ValidSpans(r)
  {
    if nets == [] then []
    else
      var front, n := SpansOf(nets[..|nets| - 1]), nets[|nets| - 1];
      if n.IPv4? then front + [SpanOf(n)] else front
  }

  /** An IPv4 network holds the 2^(32 - ones) addresses from its own on, within
      the address space; the others hold none. */
  predicate NetHas(n: Net, x: int) {
    n.IPv4? && n.ones <= 32 && n.addr <= x < SPACE && x < n.addr + Pow2(32 - n.ones)
  }

  lemma {:induction false} SpansOfNets(nets: seq<Net>, x: int)
    requires forall i :: 0 <= i < |nets| ==> WellFormed(nets[i])
    ensures 0 <= x < SPACE && InSpans(SpansOf(nets), x) <==> exists i :: 0 <= i < |nets| && NetHas(nets[i], x)
  {
    if nets != [] {
      var front, n := nets[..|nets| - 1], nets[|nets| - 1];
      SpansOfNets(front, x);
      if n.IPv4? { InSpansAppend(SpansOf(front), SpanOf(n), x); }
      if exists i :: 0 <= i < |front| && NetHas(front[i], x) {
        var i :| 0 <= i < |front| && NetHas(front[i], x);
        assert NetHas(nets[i], x);
      } else if NetHas(n, x) {
        assert NetHas(nets[|nets| - 1], x);
      } else {
        forall i | 0 <= i < |nets| ensures !NetHas(nets[i], x) {
          if i < |front| { assert !NetHas(front[i], x); }
        }
      }
    }
  }

  predicate SpanLess(a: Span, b: Span) {
    if a.start != b.start then a.start < b.start else a.end < b.end
  }

  ghost predicate SpansSorted(ss: seq<Span>) {
    forall i, j :: 0 <= i < j < |ss| ==> ss[i].start <= ss[j].start
  }

  function InsertSpan(s: Span, ss: seq<Span>): (r: seq<Span>)
    requires SpansSorted(ss)
    ensures SpansSorted(r) && |r| == |ss| + 1
    ensures forall x :: x in r <==> x == s || x in ss
  {
    if ss == [] || SpanLess(s, ss[0]) then [s] + ss
    else
      assert ss == [ss[0]] + ss[1..];
      var rest := InsertSpan(s, ss[1..]);
      assert forall i :: 0 <= i < |rest| ==> rest[i] in rest;
      [ss[0]] + rest
  }

  /** Stands for `sort.Slice` by start, then end. */
  function SortSpans(ss: seq<Span>): (r: seq<Span>)
    ensures SpansSorted(r) && |r| == |ss|
    ensures forall x :: x in r <==> x in ss
  {
    if ss == [] then [] else InsertSpan(ss[0], SortSpans(ss[1..]))
  }

  lemma {:induction false} SortKeepsSpans(ss: seq<Span>)
    ensures forall x :: InSpans(ss, x) <==> InSpans(SortSpans(ss), x)
    ensures ValidSpans(ss) ==> ValidSpans(SortSpans(ss))
  {
    var rs := SortSpans(ss);
    forall x ensures InSpans(ss, x) <==> InSpans(rs, x) {
      if InSpans(ss, x) {
        var i :| 0 <= i < |ss| && InSpan(ss[i], x);
        assert ss[i] in rs;
        var j :| 0 <= j < |rs| && rs[j] == ss[i];
      }
      if InSpans(rs, x) {
        var i :| 0 <= i < |rs| && InSpan(rs[i], x);
        assert rs[i] in ss;
        var j :| 0 <= j < |ss| && ss[j] == rs[i];
      }
    }
    if ValidSpans(ss) {
      forall i | 0 <= i < |rs| ensures ValidSpan(rs[i]) { assert rs[i] in ss; }
    }
  }

  /** What `coalesce` promises: exactly the addresses of the spans, in ordered
      disjoint blocks none wider than /1, each as wide as the addresses allow. */
  ghost predicate IsCoalesced(spans: seq<Span>, out: seq<Cidr>) {
    && Ascending(out)
    && NoWider(out, 1)
    && (forall x :: Covers(out, x) <==> 0 <= x < SPACE && InSpans(spans, x))
    && Absorbs(out, 1)
  }

  lemma {:induction false} CoversConcat(a: seq<Cidr>, b: seq<Cidr>, x: int)
    ensures Covers(a + b, x) <==> Covers(a, x) || Covers(b, x)
  {
    var all := a + b;
    if Covers(a, x) {
      var i :| 0 <= i < |a| && Has(a[i], x);
      assert Has(all[i], x);
    }
    if Covers(b, x) {
      var i :| 0 <= i < |b| && Has(b[i], x);
      assert Has(all[|a| + i], x);
    }
    if Covers(all, x) {
      var i :| 0 <= i < |all| && Has(all[i], x);
      if i < |a| { assert Has(a[i], x); } else { assert Has(b[i - |a|], x); }
    }
  }

  /** Out of two covers with a gap between them, a block takes addresses of one. */
  lemma {:induction false} OneSideOfGap(q: Cidr, a: seq<Cidr>, b: seq<Cidr>, lo: nat)
    requires forall x :: Covers(a, x) ==> x + 1 < lo
    requires forall x :: Covers(b, x) ==> lo <= x
    requires Covered(q, a + b)
    ensures Covered(q, a) || (lo <= q.base && Covered(q, b))
  {
    forall x ensures Covers(a + b, x) <==> Covers(a, x) || Covers(b, x) { CoversConcat(a, b, x); }
    if q.base < lo {
      assert Has(q, lo - 1) <==> lo <= q.End();
      assert q.End() < lo;
    }
  }

  lemma {:induction false} AbsorbsConcat(a: seq<Cidr>, lo: nat, hi: nat, b: seq<Cidr>, q: Cidr)
    requires Absorbs(a, 1) && IsSplit(lo, hi, b)
    requires forall x :: Covers(a, x) ==> x + 1 < lo
    requires q.bits >= 1 && Covered(q, a + b)
    ensures InsideSome(q, a + b)
  {
    OneSideOfGap(q, a, b, lo);
    if Covered(q, a) {
      var i := Host(q, a);
      assert Inside(q, (a + b)[i]);
    } else {
      HasBase(q);
      assert Has(q, q.End() - 1);
      var i :| 0 <= i < |b| && Has(b[i], q.base);
      assert Maximal(b[i], lo, hi);
      assert Fits(q, lo, hi) && Meet(q, b[i]);
      assert Inside(q, (a + b)[|a| + i]);
    }
  }

  /** Flushing a span that starts beyond everything written keeps the promise. */
  lemma {:induction false} FlushStep(done: seq<Span>, out: seq<Cidr>, cur: Span, piece: seq<Cidr>)
    requires IsCoalesced(done, out) && ValidSpan(cur)
    requires forall x :: InSpans(done, x) ==> x + 1 < cur.start
    requires IsSplit(cur.start, RangeEnd(cur.start, cur.end - cur.start + 1), piece)
    ensures IsCoalesced(done + [cur], out + piece)
  {
    var hi := RangeEnd(cur.start, cur.end - cur.start + 1);
    BlocksEndBefore(out, cur.start);
    PiecesStartAfter(piece, cur.start);
    forall x ensures Covers(out + piece, x) <==> 0 <= x < SPACE && InSpans(done + [cur], x) {
      CoversConcat(out, piece, x);
      InSpansAppend(done, cur, x);
    }
    forall q: Cidr | q.bits >= 1 && Covered(q, out + piece) ensures InsideSome(q, out + piece) {
      AbsorbsConcat(out, cur.start, hi, piece, q);
    }
  }

  lemma {:induction false} PiecesStartAfter(bs: seq<Cidr>, pos: nat)
    requires forall x :: Covers(bs, x) ==> pos <= x
    ensures forall i :: 0 <= i < |bs| ==> pos <= bs[i].base
  {
    forall i | 0 <= i < |bs| ensures pos <= bs[i].base {
      HasBase(bs[i]);
      assert Covers(bs, bs[i].base);
    }
  }

  lemma {:induction false} InSpansAppend(ss: seq<Span>, s: Span, x: int)
    ensures InSpans(ss + [s], x) <==> InSpans(ss, x) || InSpan(s, x)
  {
    var all := ss + [s];
    if InSpans(ss, x) {
      var i :| 0 <= i < |ss| && InSpan(ss[i], x);
      assert InSpan(all[i], x);
    }
    if InSpan(s, x) { assert InSpan(all[|ss|], x); }
    if InSpans(all, x) {
      var i :| 0 <= i < |all| && InSpan(all[i], x);
      if i < |ss| { assert InSpan(ss[i], x); }
    }
  }

  lemma {:induction false} NothingCoalesced()
    ensures IsCoalesced([], [])
  {
    forall q: Cidr ensures !Covered(q, []) {
      HasBase(q);
    }
  }

  /** What the loop holds after the spans `seen`: those before the open span
      `cur` are written, and a gap separates them from it. */
  ghost predicate Merging(seen: seq<Span>, done: seq<Span>, cur: Span, out: seq<Cidr>) {
    && IsCoalesced(done, out)
    && ValidSpan(cur)
    && (forall x :: InSpans(done, x) ==> x + 1 < cur.start)
    && (forall x :: InSpans(seen, x) <==> InSpans(done, x) || InSpan(cur, x))
  }

  lemma {:induction false} ExtendStep(seen: seq<Span>, done: seq<Span>, cur: Span, out: seq<Cidr>, s: Span)
    requires Merging(seen, done, cur, out) && ValidSpan(s)
    requires cur.start <= s.start <= cur.end + 1
    ensures Merging(seen + [s], done, Span(cur.start, if s.end > cur.end then s.end else cur.end), out)
  {
    var cur' := Span(cur.start, if s.end > cur.end then s.end else cur.end);
    forall x ensures InSpans(seen + [s], x) <==> InSpans(done, x) || InSpan(cur', x) {
      InSpansAppend(seen, s, x);
    }
  }

  lemma {:induction false} OpenStep(seen: seq<Span>, done: seq<Span>, cur: Span, out: seq<Cidr>, piece: seq<Cidr>, s: Span)
    requires Merging(seen, done, cur, out) && ValidSpan(s)
    requires cur.end + 1 < s.start
    requires IsSplit(cur.start, RangeEnd(cur.start, cur.end - cur.start + 1), piece)
    ensures Merging(seen + [s], done + [cur], s, out + piece)
  {
    FlushStep(done, out, cur, piece);
    forall x ensures InSpans(done + [cur], x) <==> InSpans(done, x) || InSpan(cur, x) { InSpansAppend(done, cur, x); }
    forall x ensures InSpans(seen + [s], x) <==> InSpans(done + [cur], x) || InSpan(s, x) {
      InSpansAppend(seen, s, x);
    }
  }

  lemma {:induction false} CloseStep(seen: seq<Span>, done: seq<Span>, cur: Span, out: seq<Cidr>, piece: seq<Cidr>)
    requires Merging(seen, done, cur, out)
    requires IsSplit(cur.start, RangeEnd(cur.start, cur.end - cur.start + 1), piece)
    ensures IsCoalesced(seen, out + piece)
  {
    FlushStep(done, out, cur, piece);
    forall x ensures InSpans(done + [cur], x) <==> InSpans(seen, x) { InSpansAppend(done, cur, x); }
  }

  lemma {:induction false} FirstSpan(s: Span)
    requires ValidSpan(s)
    ensures Merging([s], [], s, [])
  {
    NothingCoalesced();
    forall x ensures InSpans([s], x) <==> InSpan(s, x) { InSpansAppend([], s, x); }
  }

  method MergeSpans(spans: seq<Span>) returns (out: seq<Cidr>)
    requires spans != [] && ValidSpans(spans) && SpansSorted(spans)
    ensures IsCoalesced(spans, out)
  {
    out := [];
    var cur := spans[0];
    ghost var done: seq<Span> := [];
    FirstSpan(cur);
    assert spans[..1] == [cur];
    for i := 1 to |spans|
      invariant Merging(spans[..i], done, cur, out)
      invariant cur.start <= spans[i - 1].start
    {
      var s := spans[i];
      assert spans[..i + 1] == spans[..i] + [s];
      if s.start <= cur.end + 1 {
        ExtendStep(spans[..i], done, cur, out, s);
        if s.end > cur.end {
          cur := Span(cur.start, s.end);
        }
      } else {
        var piece := CidrsForRange(cur.start, cur.end - cur.start + 1);
        OpenStep(spans[..i], done, cur, out, piece, s);
        done := done + [cur];
        out, cur := out + piece, s;
      }
    }
    var piece := CidrsForRange(cur.start, cur.end - cur.start + 1);
    CloseStep(spans[..|spans|], done, cur, out, piece);
    assert spans[..|spans|] == spans;
    out := out + piece;
  }

  method Coalesce(nets: seq<Net>) returns (out: seq<Cidr>)
    requires forall i :: 0 <= i < |nets| ==> WellFormed(nets[i])
    ensures IsCoalesced(SpansOf(nets), out)
    ensures forall x :: Covers(out, x) <==> exists i :: 0 <= i < |nets| && NetHas(nets[i], x)
  {
    forall x ensures 0 <= x < SPACE && InSpans(SpansOf(nets), x) <==> exists i :: 0 <= i < |nets| && NetHas(nets[i], x) {
      SpansOfNets(nets, x);
    }
    var spans: seq<Span> := [];
    for i := 0 to |nets|
      invariant spans == SpansOf(nets[..i])
    {
      assert nets[..i + 1][..i] == nets[..i];
      if nets[i].IPv4? {
        spans := spans + [SpanOf(nets[i])];
      }
    }
    assert nets[..|nets|] == nets;
    if spans == [] {
      NothingCoalesced();
      return [];
    }
    SortKeepsSpans(spans);
    ghost var given := spans;
    spans := SortSpans(spans);
    out := MergeSpans(spans);
  }

  // ---- what follows for every input ----

  /** No list of blocks none wider than /1 covers the same addresses with fewer. */
  lemma {:induction false} CoalesceFewest(spans: seq<Span>, out: seq<Cidr>, other: seq<Cidr>)
    requires IsCoalesced(spans, out) && NoWider(other, 1)
    requires forall x :: Covers(other, x) <==> 0 <= x < SPACE && InSpans(spans, x)
    ensures |out| <= |other|
  {
    FewestBlocks(out, other, 1);
  }

  /** `totalAddresses` of the result counts the union, each address once. */
  lemma {:induction false} CoalesceTotal(spans: seq<Span>, out: seq<Cidr>)
    requires IsCoalesced(spans, out)
    ensures TotalAddresses(out) == |set x | 0 <= x < SPACE && InSpans(spans, x)|
  {
    TotalCountsCover(out);
    assert CoverSet(out) == set x | 0 <= x < SPACE && InSpans(spans, x);
  }

  lemma {:induction false} CoverSetFits(bs: seq<Cidr>)
    ensures |CoverSet(bs)| < WORD64
  {
    var space := Interval(0, SPACE);
    forall x | x in CoverSet(bs) ensures x in space {}
    SubsetSize(CoverSet(bs), space);
  }

  lemma {:induction false} ApartFits(bs: seq<Cidr>)
    requires Apart(bs)
    ensures Wrap64(TotalAddresses(bs)) == |CoverSet(bs)|
  {
    TotalCountsCover(bs);
    CoverSetFits(bs);
  }

  /** `totalAddresses`, in 64-bit arithmetic: on blocks that do not overlap it
      counts the addresses they cover. */
  method CountAddresses(bs: seq<Cidr>) returns (total: nat)
    ensures total == Wrap64(TotalAddresses(bs))
    ensures Apart(bs) ==> total == |CoverSet(bs)|
  {
    total := 0;
    for i := 0 to |bs|
      invariant total == Wrap64(TotalAddresses(bs[..i]))
    {
      TotalOfPrefix(bs, i + 1);
      WrapSum(TotalAddresses(bs[..i]), bs[i].Size());
      total := Wrap64(total + bs[i].Size());
    }
    assert bs[..|bs|] == bs;
    if Apart(bs) { ApartFits(bs); }
  }

  /** The result depends only on the addresses, not on how they were listed. */
  lemma {:induction false} CoalesceDependsOnlyOnAddresses(a: seq<Span>, outA: seq<Cidr>, b: seq<Span>, outB: seq<Cidr>)
    requires IsCoalesced(a, outA) && IsCoalesced(b, outB)
    ensures outA == outB <==> forall x :: 0 <= x < SPACE ==> (InSpans(a, x) <==> InSpans(b, x))
  {
    AbsorbingUnique(outA, outB, 1);
    if forall x :: 0 <= x < SPACE ==> (InSpans(a, x) <==> InSpans(b, x)) {
      NoneWiderThanOne(outA);
      NoneWiderThanOne(outB);
    } else {
      var x :| 0 <= x < SPACE && !(InSpans(a, x) <==> InSpans(b, x));
      assert !(Covers(outA, x) <==> Covers(outB, x));
    }
  }

  lemma {:induction false} NoneWiderThanOne(bs: seq<Cidr>)
    requires NoWider(bs, 1)
    ensures Wide(bs, 1) == {}
  {
    forall b | b in bs ensures b.bits >= 1 {
      var i :| 0 <= i < |bs| && bs[i] == b;
    }
  }

  /** The networks with the given blocks. */
  function NetsOf(bs: seq<Cidr>): (r: seq<Net>)
    ensures forall i :: 0 <= i < |r| ==> WellFormed(r[i])
  {
    if bs == [] then []
    else NetsOf(bs[..|bs| - 1]) + [IPv4(bs[|bs| - 1].base, bs[|bs| - 1].bits)]
  }

  lemma {:induction false} NetsSpan(bs: seq<Cidr>, x: int)
    ensures InSpans(SpansOf(NetsOf(bs)), x) <==> Covers(bs, x)
  {
    if bs != [] {
      var front, b := bs[..|bs| - 1], bs[|bs| - 1];
      NetsSpan(front, x);
      assert NetsOf(bs)[..|NetsOf(bs)| - 1] == NetsOf(front);
      InSpansAppend(SpansOf(NetsOf(front)), SpanOf(IPv4(b.base, b.bits)), x);
      assert bs == front + [b];
      CoversAppend(front, b, x);
    }
  }

  /** On aligned blocks the spans are the blocks' own addresses. */
  lemma {:induction false} CoalesceOfBlocks(bs: seq<Cidr>, out: seq<Cidr>)
    requires IsCoalesced(SpansOf(NetsOf(bs)), out)
    ensures SameCover(bs, out)
  {
    forall x ensures Covers(bs, x) <==> Covers(out, x) {
      NetsSpan(bs, x);
      if Covers(bs, x) {
        var i :| 0 <= i < |bs| && Has(bs[i], x);
        EndInSpace(bs[i]);
      }
    }
  }
}
