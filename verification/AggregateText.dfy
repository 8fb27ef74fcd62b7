/** cmd/geo-gen: `aggregateCIDRs` on the text of its lines. */
module AggregateText {
  import opened Wrappers
  import opened Folds
  import opened Text
  import opened Decimal
  import opened Blocks
  import opened DottedQuad
  import opened Aggregate

  const WORD64: int := 0x1_0000_0000_0000_0000

  /** A number as a 64-bit signed int keeps it. */
  function WrapInt(n: int): (w: int)
    ensures IsInt64(w)
  {
    var m := n % WORD64;
    if m > MAX_INT64 then m - WORD64 else m
  }

  lemma {:induction false} Unwrapped(n: nat)
    requires n <= MAX_INT64
    ensures WrapInt(n) == n
  {
  }

  lemma {:induction false} WrapStep(n: int, d: int)
    ensures WrapInt(10 * WrapInt(n) + d) == WrapInt(10 * n + d)
  {
    var k := (n - WrapInt(n)) / WORD64;
    assert n == WrapInt(n) + WORD64 * k;
    WrapShift(10 * WrapInt(n) + d, 10 * k);
  }

  lemma {:induction false} WrapShift(n: int, k: int)
    ensures WrapInt(n + WORD64 * k) == WrapInt(n)
  {
    assert (n + WORD64 * k) % WORD64 == n % WORD64;
  }

  function LeadingDigits(s: string): (d: string)
    ensures AllDigits(d) && |d| <= |s| && d == s[..|d|]
    ensures |d| < |s| ==> !IsDigit(s[|d|])
  {
    if s == "" || !IsDigit(s[0]) then ""
    else
      var rest := LeadingDigits(s[1..]);
      assert s[..1 + |rest|] == [s[0]] + s[1..][..|rest|];
      [s[0]] + rest
  }

  lemma {:induction false} LeadingIs(digits: string, rest: string)
    requires AllDigits(digits) && (rest == "" || !IsDigit(rest[0]))
    ensures LeadingDigits(digits + rest) == digits
  {
    if digits == "" {
      assert digits + rest == rest;
    } else {
      assert (digits + rest)[1..] == digits[1..] + rest;
      LeadingIs(digits[1..], rest);
      assert digits == [digits[0]] + digits[1..];
    }
  }

  /** `prefixLen`: the digits after the slash, in 64-bit arithmetic; what follows
      them is not looked at. */
  method PrefixLen(mask: string) returns (n: int)
    ensures n == WrapInt(DigitsValue(LeadingDigits(mask)))
  {
    n := 0;
    for i := 0 to |mask|
      invariant AllDigits(mask[..i]) && n == WrapInt(DigitsValue(mask[..i]))
    {
      assert mask == mask[..i] + mask[i..];
      if !IsDigit(mask[i]) {
        LeadingIs(mask[..i], mask[i..]);
        return;
      }
      assert mask[..i + 1][..i] == mask[..i];
      WrapStep(DigitsValue(mask[..i]), DigitValue(mask[i]));
      n := WrapInt(10 * n + DigitValue(mask[i]));
    }
    assert mask[..|mask|] == mask && mask + "" == mask;
    LeadingIs(mask, "");
  }

  /** A length no int below zero can be: such a line is passed over like a malformed one. */
  function PrefixLine(ip: Option<nat>, bits: int): Line {
    if ip.None? || bits < 0 then Malformed else Prefix(ip.value, bits)
  }

  function LineOf(s: string): Line {
    var i := IndexOf(s, '/');
    if i == |s| then Malformed else PrefixLine(ParseQuad(s[..i]), WrapInt(DigitsValue(LeadingDigits(s[i + 1..]))))
  }

  method ReadLine(s: string) returns (l: Line)
    ensures l == LineOf(s)
  {
    var i := IndexOf(s, '/');
    if i == |s| {
      return Malformed;
    }
    var bits := PrefixLen(s[i + 1..]);
    l := PrefixLine(ParseQuad(s[..i]), bits);
  }

  // ---- what a line says ----

  /** "a.b.c.d/n", and anything that is no digit after it. */
  ghost predicate RouteText(s: string, ip: nat, digits: string, rest: string) {
    && ip < SPACE && AllDigits(digits) && (rest == "" || !IsDigit(rest[0]))
    && s == FormatQuad(ip) + ['/'] + (digits + rest)
  }

  /** The line names a block, no wider than /1, that holds x. */
  ghost predicate TextHas(s: string, x: int) {
    exists ip: nat, digits: string, rest: string ::
      && RouteText(s, ip, digits, rest)
      && var bits := WrapInt(DigitsValue(digits));
         1 <= bits <= 32 && Has(BlockOf(ip, bits), x)
  }

  /** Some line does. */
  ghost predicate TextsHave(texts: seq<string>, x: int) {
    exists i: nat :: i < |texts| && TextHas(texts[i], x)
  }

  lemma {:induction false} RouteReads(s: string, ip: nat, digits: string, rest: string)
    requires RouteText(s, ip, digits, rest)
    ensures LineOf(s) == PrefixLine(Some(ip), WrapInt(DigitsValue(digits)))
  {
    var q, mask := FormatQuad(ip), digits + rest;
    QuadChars(ip);
    QuadRoundTrip(ip);
    assert s[..|q|] == q && s[|q|] == '/' && s[|q| + 1..] == mask;
    IndexOfIs(s, '/', |q|);
    LeadingIs(digits, rest);
  }

  /** A line that is read is such a text. */
  lemma {:induction false} ReadRoute(s: string) returns (ip: nat, digits: string, rest: string)
    requires LineOf(s).Prefix?
    ensures RouteText(s, ip, digits, rest)
  {
    var i := IndexOf(s, '/');
    var q, mask := s[..i], s[i + 1..];
    digits := LeadingDigits(mask);
    rest := mask[|digits|..];
    ip := ParseQuad(q).value;
    assert mask == digits + rest;
    CutAt(s, i);
    QuadWritten(q, ip);
  }

  lemma {:induction false} LineHasText(s: string, x: int)
    ensures LineHas(LineOf(s), x) <==> TextHas(s, x)
  {
    if LineHas(LineOf(s), x) {
      var ip, digits, rest := ReadRoute(s);
      RouteReads(s, ip, digits, rest);
    }
    if TextHas(s, x) {
      var ip: nat, digits: string, rest: string :|
        && RouteText(s, ip, digits, rest)
        && var bits := WrapInt(DigitsValue(digits));
           1 <= bits <= 32 && Has(BlockOf(ip, bits), x);
      RouteReads(s, ip, digits, rest);
    }
  }

  // ---- the whole function ----

  lemma {:induction false} EndsThere(q: string, mask: string)
    ensures q + (['/'] + mask) == q + ['/'] + (mask + "")
  {
  }

  lemma {:induction false} BlockIsRoute(b: Cidr)
    ensures RouteText(WithMask(b), b.base, Digits(b.bits), "")
  {
    EndsThere(FormatQuad(b.base), Digits(b.bits));
  }

  lemma {:induction false} BlockReads(b: Cidr)
    ensures LineOf(WithMask(b)) == Prefix(b.base, b.bits)
  {
    BlockIsRoute(b);
    ValueOfDigits(b.bits);
    Unwrapped(b.bits);
    RouteReads(WithMask(b), b.base, Digits(b.bits), "");
  }

  lemma {:induction false} BlockTextHas(b: Cidr, x: int)
    requires b.bits >= 1
    ensures TextHas(WithMask(b), x) <==> Has(b, x)
  {
    BlockReads(b);
    BlockOfItself(b);
    LineHasText(WithMask(b), x);
  }

  lemma {:induction false} ReadBack(write: Cidr -> string, read: string -> Line, bs: seq<Cidr>)
    requires NoWider(bs, 1) && forall b: Cidr :: b.bits >= 1 ==> read(write(b)) == Prefix(b.base, b.bits)
    ensures BlocksOf(Map(read, Map(write, bs))) == bs
  {
    if bs != [] {
      var front, b := bs[..|bs| - 1], bs[|bs| - 1];
      ReadBack(write, read, front);
      assert bs == front + [b];
      MapAppend(write, front, b);
      MapAppend(read, Map(write, front), write(b));
      BlocksOfAppend(Map(read, Map(write, front)), b);
    }
  }

  /** The printed blocks read back as themselves. */
  lemma {:induction false} WrittenRead(bs: seq<Cidr>)
    requires NoWider(bs, 1)
    ensures BlocksOf(Map(LineOf, Map(WithMask, bs))) == bs
  {
    forall b: Cidr | b.bits >= 1 ensures LineOf(WithMask(b)) == Prefix(b.base, b.bits) { BlockReads(b); }
    ReadBack(WithMask, LineOf, bs);
  }

  lemma {:induction false} AggregateNoWider(lines: seq<Line>, out: seq<Cidr>)
    requires IsAggregate(BlocksOf(lines), out)
    ensures NoWider(out, 1)
  {
    forall i | 0 <= i < |out| ensures out[i].bits >= 1 {
      if out[i].bits < MIN_AGG_BITS {
        assert out[i] in Wide(out, MIN_AGG_BITS);
        BlocksOfLines(lines, out[i]);
      }
    }
  }

  /** Text in, text out: a line that is no route is passed over, and the printed
      blocks hold exactly the addresses the lines hold. */
  method AggregateTexts(given: seq<string>) returns (out: seq<string>, ghost blocks: seq<Cidr>)
    ensures IsAggregate(BlocksOf(Map(LineOf, given)), blocks) && out == Map(WithMask, blocks)
    ensures forall x :: TextsHave(out, x) <==> TextsHave(given, x)
  {
    var lines := ReadLines(given);
    var bs := AggregateCIDRs(lines);
    blocks := bs;
    out := WriteBlocks(bs);
    AggregateNoWider(lines, bs);
    forall x ensures TextsHave(out, x) <==> TextsHave(given, x) {
      WrittenCover(bs, x);
      ReadCover(given, lines, x);
    }
  }

  method ReadLines(given: seq<string>) returns (lines: seq<Line>)
    ensures lines == Map(LineOf, given)
  {
    lines := [];
    for i := 0 to |given|
      invariant lines == Map(LineOf, given[..i])
    {
      MapPrefix(LineOf, given, i);
      var l := ReadLine(given[i]);
      lines := lines + [l];
    }
    assert given[..|given|] == given;
  }

  method WriteBlocks(bs: seq<Cidr>) returns (out: seq<string>)
    ensures out == Map(WithMask, bs)
  {
    out := [];
    for i := 0 to |bs|
      invariant out == Map(WithMask, bs[..i])
    {
      MapPrefix(WithMask, bs, i);
      out := out + [WithMask(bs[i])];
    }
    assert bs[..|bs|] == bs;
  }

  lemma {:induction false} TextAtHas(bs: seq<Cidr>, k: nat, x: int)
    requires NoWider(bs, 1) && k < |bs|
    ensures TextHas(Map(WithMask, bs)[k], x) <==> Has(bs[k], x)
  {
    MapAt(WithMask, bs, k);
    BlockTextHas(bs[k], x);
  }

  lemma {:induction false} WrittenCover(bs: seq<Cidr>, x: int)
    requires NoWider(bs, 1)
    ensures TextsHave(Map(WithMask, bs), x) <==> Covers(bs, x)
  {
    var texts := Map(WithMask, bs);
    forall k: nat | k < |bs| ensures TextHas(texts[k], x) <==> Has(bs[k], x) { TextAtHas(bs, k, x); }
    BothHave(texts, bs, x);
  }

  lemma {:induction false} BothHave(texts: seq<string>, bs: seq<Cidr>, x: int)
    requires |texts| == |bs| && forall k: nat :: k < |bs| ==> (TextHas(texts[k], x) <==> Has(bs[k], x))
    ensures TextsHave(texts, x) <==> Covers(bs, x)
  {
    if TextsHave(texts, x) {
      var k: nat :| k < |texts| && TextHas(texts[k], x);
      assert Has(bs[k], x);
    }
    if Covers(bs, x) {
      var k: nat :| k < |bs| && Has(bs[k], x);
      assert TextHas(texts[k], x);
    }
  }

  lemma {:induction false} LineAtHas(given: seq<string>, i: nat, x: int)
    requires i < |given|
    ensures LineHas(Map(LineOf, given)[i], x) <==> TextHas(given[i], x)
  {
    MapAt(LineOf, given, i);
    LineHasText(given[i], x);
  }

  lemma {:induction false} LinesHave(given: seq<string>, lines: seq<Line>, x: int)
    requires |lines| == |given| && forall i: nat :: i < |given| ==> (LineHas(lines[i], x) <==> TextHas(given[i], x))
    ensures TextsHave(given, x) <==> exists i :: 0 <= i < |given| && LineHas(lines[i], x)
  {
    if TextsHave(given, x) {
      var i: nat :| i < |given| && TextHas(given[i], x);
      assert LineHas(lines[i], x);
    }
  }

  lemma {:induction false} ReadCover(given: seq<string>, lines: seq<Line>, x: int)
    requires lines == Map(LineOf, given)
    ensures TextsHave(given, x) <==> exists i :: 0 <= i < |given| && LineHas(lines[i], x)
  {
    forall i: nat | i < |given| ensures LineHas(lines[i], x) <==> TextHas(given[i], x) { LineAtHas(given, i, x); }
    LinesHave(given, lines, x);
  }

  /** Aggregating the text that was written gives the same text. */
  lemma {:induction false} TextIdempotent(given: seq<string>, once: seq<Cidr>, twice: seq<Cidr>)
    requires IsAggregate(BlocksOf(Map(LineOf, given)), once)
    requires IsAggregate(BlocksOf(Map(LineOf, Map(WithMask, once))), twice)
    ensures Map(WithMask, twice) == Map(WithMask, once)
  {
    AggregateNoWider(Map(LineOf, given), once);
    WrittenRead(once);
    AggregateIdempotent(BlocksOf(Map(LineOf, given)), once, twice);
  }
}
