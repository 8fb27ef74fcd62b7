/** Decimal text of integers, as Go's `%d` writes and `strconv.Atoi` reads it. */
module Decimal {
  import opened Wrappers
  import opened Text

  predicate IsDigit(c: char) {
    '0' <= c <= '9'
  }

  function DigitChar(d: nat): (c: char)
    requires d < 10
    ensures IsDigit(c) && DigitValue(c) == d && c == "0123456789"[d]
  {
    '0' + d as char
  }

  function DigitValue(c: char): (d: nat)
    requires IsDigit(c)
    ensures d < 10
  {
    (c - '0') as nat
  }

  predicate AllDigits(s: string) {
    forall i :: 0 <= i < |s| ==> IsDigit(s[i])
  }

  function Digits(n: nat): (s: string)
    ensures s != [] && AllDigits(s)
  {
    if n < 10 then [DigitChar(n)] else Digits(n / 10) + [DigitChar(n % 10)]
  }

  function DigitsValue(s: string): nat
    requires AllDigits(s)
  {
    if s == [] then 0 else 10 * DigitsValue(s[..|s| - 1]) + DigitValue(s[|s| - 1])
  }

  lemma {:induction false} ValueOfDigits(n: nat)
    ensures DigitsValue(Digits(n)) == n
  {
    if n >= 10 {
      ValueOfDigits(n / 10);
      assert Digits(n)[..|Digits(n)| - 1] == Digits(n / 10);
    }
  }

  lemma {:induction false} NoLeadingZero(n: nat)
    ensures Digits(n)[0] == '0' ==> n == 0
    ensures n == 0 ==> Digits(n) == "0"
  {
    if n >= 10 { NoLeadingZero(n / 10); }
  }

  /** A numeral without a superfluous zero is the one `Digits` writes. */
  lemma {:induction false} DigitsOfValue(s: string)
    requires s != [] && AllDigits(s) && (s[0] == '0' ==> |s| == 1)
    ensures Digits(DigitsValue(s)) == s
    ensures s[0] != '0' ==> DigitsValue(s) > 0
  {
    if |s| > 1 {
      var front, c := s[..|s| - 1], s[|s| - 1];
      DigitsOfValue(front);
      var n := DigitsValue(s);
      assert n == 10 * DigitsValue(front) + DigitValue(c) && n >= 10;
      assert n / 10 == DigitsValue(front) && n % 10 == DigitValue(c);
      DigitCharOf(c);
      assert s == front + [c];
    } else {
      assert s[..0] == [] && s == [s[0]];
      DigitCharOf(s[0]);
    }
  }

  lemma {:induction false} DigitCharOf(c: char)
    requires IsDigit(c)
    ensures DigitChar(DigitValue(c)) == c
  {
  }

  const MAX_INT64: int := 0x7FFF_FFFF_FFFF_FFFF
  const MIN_INT64: int := -0x8000_0000_0000_0000

  predicate IsInt64(n: int) {
    MIN_INT64 <= n <= MAX_INT64
  }

  function FormatInt(n: int): string {
    if n < 0 then ['-'] + Digits(-n) else Digits(n)
  }

  /** `strconv.Atoi`: an optional sign, digits, within the range of int. */
  function Atoi(s: string): Option<int> {
    var signed := s != [] && (s[0] == '-' || s[0] == '+');
    var digits := if signed then s[1..] else s;
    if digits == [] || !AllDigits(digits) then None
    else
      var magnitude: int := DigitsValue(digits);
      var n := if signed && s[0] == '-' then -magnitude else magnitude;
      if IsInt64(n) then Some(n) else None
  }

  function AtoiOr(s: string, default: int): int {
    match Atoi(TrimSpace(s))
    case Some(n) => n
    case None => default
  }

  lemma {:induction false} DigitsTrimmed(s: string)
    requires AllDigits(s)
    ensures TrimSpace(s) == s && TrimSpace(['-'] + s) == ['-'] + s
  {
    TrimOfTrimmed(s);
    TrimOfTrimmed(['-'] + s);
  }

  /** Reading back what was written gives the number, if an int can hold it. */
  lemma {:induction false} AtoiOfFormat(n: int, default: int)
    ensures AtoiOr(FormatInt(n), default) == if IsInt64(n) then n else default
  {
    var d := Digits(if n < 0 then -n else n);
    ValueOfDigits(if n < 0 then -n else n);
    DigitsTrimmed(d);
    if n < 0 {
      assert (['-'] + d)[1..] == d;
    } else {
      assert IsDigit(d[0]);
    }
  }

  lemma {:induction false} FormatIsPlain(n: int)
    ensures FormatInt(n) != [] && forall c :: c in FormatInt(n) ==> IsDigit(c) || c == '-'
  {
  }
}
