/** IPv4 addresses and networks as text, as Go's net package reads and writes
    them. IPv6 text is not read. */
module DottedQuad {
  import opened Wrappers
  import opened Text
  import opened Decimal
  import opened Blocks

  function OctetText(n: nat): string
    requires n < 256
  {
    Digits(n)
  }

  /** One field: decimal, at most 255, no superfluous leading zero. */
  function Octet(s: string): (n: Option<nat>)
    ensures n.Some? ==> n.value < 256
  {
    if s == [] || !AllDigits(s) || (s[0] == '0' && |s| > 1) || DigitsValue(s) > 255 then None
    else Some(DigitsValue(s))
  }

  function Address(a: nat, b: nat, c: nat, d: nat): nat {
    ((a * 256 + b) * 256 + c) * 256 + d
  }

  function ParseQuad(s: string): (ip: Option<nat>)
    ensures ip.Some? ==> ip.value < SPACE
  {
    var parts := Split(s, '.');
    if |parts| != 4 then None
    else
      match (Octet(parts[0]), Octet(parts[1]), Octet(parts[2]), Octet(parts[3]))
      case (Some(a), Some(b), Some(c), Some(d)) => Some(Address(a, b, c, d))
      case _ => None
  }

  function Fields(a: nat, b: nat, c: nat, d: nat): string
    requires a < 256 && b < 256 && c < 256 && d < 256
  {
    Join([OctetText(a), OctetText(b), OctetText(c), OctetText(d)], '.')
  }

  function FormatQuad(ip: nat): string
    requires ip < SPACE
  {
    Fields(ip / 256 / 256 / 256, ip / 256 / 256 % 256, ip / 256 % 256, ip % 256)
  }

  lemma {:induction false} OctetRoundTrip(n: nat)
    requires n < 256
    ensures Octet(OctetText(n)) == Some(n) && '.' !in OctetText(n)
  {
    ValueOfDigits(n);
    NoLeadingZero(n);
  }

  lemma {:induction false} FieldsRoundTrip(a: nat, b: nat, c: nat, d: nat)
    requires a < 256 && b < 256 && c < 256 && d < 256
    ensures ParseQuad(Fields(a, b, c, d)) == Some(Address(a, b, c, d))
  {
    OctetRoundTrip(a);
    OctetRoundTrip(b);
    OctetRoundTrip(c);
    OctetRoundTrip(d);
    SplitOfJoin([OctetText(a), OctetText(b), OctetText(c), OctetText(d)], '.');
  }

  lemma {:induction false} QuadRoundTrip(ip: nat)
    requires ip < SPACE
    ensures ParseQuad(FormatQuad(ip)) == Some(ip)
  {
    var a, b, c, d := ip / 256 / 256 / 256, ip / 256 / 256 % 256, ip / 256 % 256, ip % 256;
    assert FormatQuad(ip) == Fields(a, b, c, d);
    FieldsRoundTrip(a, b, c, d);
    AddressOfOctets(ip);
  }

  lemma {:induction false} AddressOfOctets(ip: nat)
    ensures Address(ip / 256 / 256 / 256, ip / 256 / 256 % 256, ip / 256 % 256, ip % 256) == ip
  {
  }

  lemma {:induction false} OctetsOfAddress(a: nat, b: nat, c: nat, d: nat)
    requires a < 256 && b < 256 && c < 256 && d < 256
    ensures var ip := Address(a, b, c, d);
            && ip == 16777216 * a + 65536 * b + 256 * c + d && ip < SPACE
            && ip / 256 / 256 / 256 == a && ip / 256 / 256 % 256 == b && ip / 256 % 256 == c && ip % 256 == d
  {
  }

  /** The four octets in decimal, the highest first. */
  lemma {:induction false} QuadIs(ip: nat, a: nat, b: nat, c: nat, d: nat)
    requires a < 256 && b < 256 && c < 256 && d < 256
    requires ip == 16777216 * a + 65536 * b + 256 * c + d
    ensures ip < SPACE && FormatQuad(ip) == Join([Digits(a), Digits(b), Digits(c), Digits(d)], '.')
  {
    OctetsOfAddress(a, b, c, d);
    assert ip == Address(a, b, c, d);
    QuadOf(ip, a, b, c, d);
  }

  lemma {:induction false} QuadOf(ip: nat, a: nat, b: nat, c: nat, d: nat)
    requires ip < SPACE && a < 256 && b < 256 && c < 256 && d < 256
    requires ip / 256 / 256 / 256 == a && ip / 256 / 256 % 256 == b && ip / 256 % 256 == c && ip % 256 == d
    ensures FormatQuad(ip) == Join([Digits(a), Digits(b), Digits(c), Digits(d)], '.')
  {
    assert FormatQuad(ip) == Fields(a, b, c, d);
  }

  /** Only the text that is written for an address is read as that address. */
  lemma {:induction false} QuadExactly(s: string, ip: nat)
    ensures ParseQuad(s) == Some(ip) <==> ip < SPACE && s == FormatQuad(ip)
  {
    if ip < SPACE { QuadRoundTrip(ip); }
    if ParseQuad(s) == Some(ip) { QuadWritten(s, ip); }
  }

  lemma {:induction false} OctetWritten(s: string)
    requires Octet(s).Some?
    ensures s == OctetText(Octet(s).value)
  {
    DigitsOfValue(s);
  }

  lemma {:induction false} QuadWritten(s: string, ip: nat)
    requires ParseQuad(s) == Some(ip)
    ensures ip < SPACE && s == FormatQuad(ip)
  {
    var parts := Split(s, '.');
    var a, b, c, d := Octet(parts[0]).value, Octet(parts[1]).value, Octet(parts[2]).value, Octet(parts[3]).value;
    assert ip == Address(a, b, c, d);
    OctetsOfAddress(a, b, c, d);
    FourWritten(parts);
    JoinOfSplit(s, '.');
  }

  lemma {:induction false} FourWritten(parts: seq<string>)
    requires |parts| == 4 && forall i :: 0 <= i < 4 ==> Octet(parts[i]).Some?
    ensures Join(parts, '.') == Fields(Octet(parts[0]).value, Octet(parts[1]).value, Octet(parts[2]).value,
                                       Octet(parts[3]).value)
  {
    OctetWritten(parts[0]);
    OctetWritten(parts[1]);
    OctetWritten(parts[2]);
    OctetWritten(parts[3]);
    assert parts == [parts[0], parts[1], parts[2], parts[3]];
  }

  predicate QuadText(s: string) {
    s != [] && forall i :: 0 <= i < |s| ==> IsDigit(s[i]) || s[i] == '.'
  }

  lemma {:induction false} JoinedQuadText(parts: seq<string>)
    requires parts != [] && forall i :: 0 <= i < |parts| ==> QuadText(parts[i])
    ensures QuadText(Join(parts, '.'))
    decreases |parts|
  {
    if |parts| > 1 { JoinedQuadText(parts[1..]); }
  }

  lemma {:induction false} QuadChars(ip: nat)
    requires ip < SPACE
    ensures QuadText(FormatQuad(ip))
  {
    JoinedQuadText([OctetText(ip / 256 / 256 / 256), OctetText(ip / 256 / 256 % 256),
                    OctetText(ip / 256 % 256), OctetText(ip % 256)]);
  }

  /** The network of an address, if there is one, and the text of a mask. */
  function Network(ip: Option<nat>, mask: string): Option<Cidr>
    requires ip.Some? ==> ip.value < SPACE
  {
    if ip.None? || mask == [] || !AllDigits(mask) || DigitsValue(mask) > 32 then None
    else Some(BlockOf(ip.value, DigitsValue(mask)))
  }

  /** `net.ParseCIDR`: the network an "a.b.c.d/nn" text denotes. */
  function ParseCIDR(s: string): Option<Cidr> {
    var i := IndexOf(s, '/');
    if i == |s| then None else Network(ParseQuad(s[..i]), s[i + 1..])
  }

  /** Any address of the network may be written before the slash, and any
      decimal of at most 32 after it. */
  ghost predicate CidrText(s: string, ip: nat, mask: string) {
    && ip < SPACE && mask != [] && AllDigits(mask) && DigitsValue(mask) <= 32
    && s == FormatQuad(ip) + ['/'] + mask
  }

  lemma {:induction false} CidrExactly(s: string, b: Cidr)
    ensures ParseCIDR(s) == Some(b) <==>
              exists ip: nat, mask: string :: CidrText(s, ip, mask) && b.bits == DigitsValue(mask) && Has(b, ip)
  {
    if ParseCIDR(s) == Some(b) {
      CidrWritten(s, b);
    }
    if exists ip: nat, mask: string :: CidrText(s, ip, mask) && b.bits == DigitsValue(mask) && Has(b, ip) {
      var ip: nat, mask: string :| CidrText(s, ip, mask) && b.bits == DigitsValue(mask) && Has(b, ip);
      CidrReads(s, ip, mask);
      SameBlock(BlockOf(ip, b.bits), b, ip);
    }
  }

  lemma {:induction false} NetworkParts(ip: Option<nat>, mask: string, b: Cidr)
    requires ip.Some? ==> ip.value < SPACE
    requires Network(ip, mask) == Some(b)
    ensures ip.Some? && mask != [] && AllDigits(mask) && b.bits == DigitsValue(mask) && Has(b, ip.value)
  {
  }

  lemma {:induction false} CidrWritten(s: string, b: Cidr)
    requires ParseCIDR(s) == Some(b)
    ensures exists ip: nat, mask: string :: CidrText(s, ip, mask) && b.bits == DigitsValue(mask) && Has(b, ip)
  {
    var i := IndexOf(s, '/');
    NetworkParts(ParseQuad(s[..i]), s[i + 1..], b);
    CutAt(s, i);
    CidrTextIs(s, s[..i], ParseQuad(s[..i]).value, s[i + 1..], b.bits);
  }

  lemma {:induction false} CutAt(s: string, i: nat)
    requires i < |s|
    ensures s == s[..i] + [s[i]] + s[i + 1..]
  {
  }

  lemma {:induction false} CidrTextIs(s: string, q: string, ip: nat, mask: string, bits: nat)
    requires ParseQuad(q) == Some(ip) && s == q + ['/'] + mask
    requires mask != [] && AllDigits(mask) && DigitsValue(mask) == bits <= 32
    ensures CidrText(s, ip, mask)
  {
    QuadWritten(q, ip);
  }

  lemma {:induction false} CidrReads(s: string, ip: nat, mask: string)
    requires CidrText(s, ip, mask)
    ensures ParseCIDR(s) == Some(BlockOf(ip, DigitsValue(mask)))
  {
    var q := FormatQuad(ip);
    QuadChars(ip);
    QuadRoundTrip(ip);
    assert s[..|q|] == q && s[|q|] == '/' && s[|q| + 1..] == mask;
    IndexOfIs(s, '/', |q|);
    CidrAt(s, |q|, Some(ip));
  }

  /** Blocks of one size that share an address are the same. */
  lemma {:induction false} SameBlock(a: Cidr, b: Cidr, x: nat)
    requires a.bits == b.bits && Has(a, x) && Has(b, x)
    ensures a == b
  {
    Laminar(a, b);
  }

  function WithMask(b: Cidr): string {
    FormatQuad(b.base) + (['/'] + Digits(b.bits))
  }

  lemma {:induction false} WithMaskParts(b: Cidr)
    ensures var s, i := WithMask(b), IndexOf(WithMask(b), '/');
            i < |s| && s[..i] == FormatQuad(b.base) && s[i + 1..] == Digits(b.bits)
  {
    var q, s := FormatQuad(b.base), WithMask(b);
    QuadChars(b.base);
    assert s[..|q|] == q && s[|q|] == '/' && s[|q| + 1..] == Digits(b.bits);
    IndexOfIs(s, '/', |q|);
  }

  lemma {:induction false} NetworkOfBlock(b: Cidr)
    ensures Network(Some(b.base), Digits(b.bits)) == Some(b)
  {
    ValueOfDigits(b.bits);
    BlockOfItself(b);
  }

  lemma {:induction false} CidrAt(s: string, i: nat, ip: Option<nat>)
    requires i == IndexOf(s, '/') < |s| && ip == ParseQuad(s[..i])
    ensures ParseCIDR(s) == Network(ip, s[i + 1..])
  {
  }

  lemma {:induction false} CidrRoundTrip(b: Cidr)
    ensures ParseCIDR(WithMask(b)) == Some(b)
  {
    WithMaskParts(b);
    QuadRoundTrip(b.base);
    NetworkOfBlock(b);
    CidrAt(WithMask(b), IndexOf(WithMask(b), '/'), Some(b.base));
  }

  /** How an entry is written: a bare address, or a network with its length. */
  function Canonical(b: Cidr): string {
    if b.bits == 32 then FormatQuad(b.base) else WithMask(b)
  }

  /** A single address or a network. */
  function ParseEntry(s: string): Option<Cidr> {
    if '/' in s then ParseCIDR(s)
    else
      match ParseQuad(s)
      case Some(ip) => Some(BlockOf(ip, 32))
      case None => None
  }

  /** Without a slash only a bare address is read. */
  lemma {:induction false} EntryExactly(s: string, b: Cidr)
    ensures ParseEntry(s) == Some(b) <==>
              if '/' in s
              then exists ip: nat, mask: string :: CidrText(s, ip, mask) && b.bits == DigitsValue(mask) && Has(b, ip)
              else b.bits == 32 && s == FormatQuad(b.base)
  {
    if '/' in s {
      CidrExactly(s, b);
    } else {
      BareEntry(s, ParseQuad(s), b);
      QuadExactly(s, b.base);
    }
  }

  lemma {:induction false} BareEntry(s: string, ip: Option<nat>, b: Cidr)
    requires '/' !in s && ip == ParseQuad(s)
    ensures ParseEntry(s) == Some(b) <==> b.bits == 32 && ip == Some(b.base)
  {
    BlockOfItself(b);
    if ip.Some? { AloneInBlock(ip.value); }
  }

  lemma {:induction false} AloneInBlock(ip: nat)
    requires ip < SPACE
    ensures BlockOf(ip, 32).base == ip
  {
    assert BlockOf(ip, 32).Size() == 1;
  }

  lemma {:induction false} CanonicalRoundTrip(b: Cidr)
    ensures ParseEntry(Canonical(b)) == Some(b)
  {
    QuadChars(b.base);
    if b.bits == 32 {
      QuadRoundTrip(b.base);
      BlockOfItself(b);
    } else {
      CidrRoundTrip(b);
      assert WithMask(b)[|FormatQuad(b.base)|] == '/';
    }
  }

  lemma {:induction false} CanonicalInjective(a: Cidr, b: Cidr)
    ensures Canonical(a) == Canonical(b) <==> a == b
  {
    CanonicalRoundTrip(a);
    CanonicalRoundTrip(b);
  }

  lemma {:induction false} CanonicalPlain(b: Cidr)
    ensures Canonical(b) != [] && TrimSpace(Canonical(b)) == Canonical(b)
    ensures forall i :: 0 <= i < |Canonical(b)| ==> IsDigit(Canonical(b)[i]) || Canonical(b)[i] == '.' || Canonical(b)[i] == '/'
  {
    QuadChars(b.base);
    TrimOfTrimmed(Canonical(b));
  }
}
