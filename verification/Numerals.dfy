/** Decimal numerals, and what a number's text is made of. */
module Numerals {

  /** The largest integer the serializer accepts. */
  const SAFE: int := 0x1F_FFFF_FFFF_FFFF

  function Digit(d: nat): char
    requires d < 16
  {
    "0123456789abcdef"[d]
  }

  function Decimal(n: nat): (t: string)
    ensures t != "" && forall i :: 0 <= i < |t| ==> '0' <= t[i] <= '9'
  {
    if n < 10 then [Digit(n)] else Decimal(n / 10) + [Digit(n % 10)]
  }

  function IntText(n: int): string { if n < 0 then "-" + Decimal(-n) else Decimal(n) }

  predicate NumberChar(c: char) { '0' <= c <= '9' || c == '-' || c == '+' || c == '.' || c == 'e' }

  predicate NumberText(t: string) {
    t != "" && (t[0] == '-' || '0' <= t[0] <= '9') && forall i :: 0 <= i < |t| ==> NumberChar(t[i])
  }

  lemma CutSame(a: string, x: string, b: string, y: string)
    requires a + x == b + y && |a| == |b|
    ensures a == b && x == y
  {
    assert a == (a + x)[..|a|] && b == (b + y)[..|a|];
    assert x == (a + x)[|a|..] && y == (b + y)[|a|..];
  }

  lemma HexInjective(m: nat, n: nat)
    requires m < 16 && n < 16 && Digit(m) == Digit(n)
    ensures m == n
  {
  }

  lemma IntIsNumber(n: int)
    ensures NumberText(IntText(n))
  {
  }

  lemma {:induction false} DecimalInjective(m: nat, n: nat)
    requires Decimal(m) == Decimal(n)
    ensures m == n
  {
    var t, u := Decimal(m), Decimal(n);
    if m >= 10 && n >= 10 {
      CutSame(Decimal(m / 10), [Digit(m % 10)], Decimal(n / 10), [Digit(n % 10)]);
      DecimalInjective(m / 10, n / 10);
      HexInjective(m % 10, n % 10);
    } else {
      DecimalLength(m);
      DecimalLength(n);
      HexInjective(m, n);
    }
  }

  lemma DecimalLength(n: nat)
    ensures |Decimal(n)| == 1 <==> n < 10
  {
  }

  lemma SignShows(n: int)
    ensures IntText(n)[0] == '-' <==> n < 0
  {
    var t := Decimal(if n < 0 then -n else n);
    assert '0' <= t[0] <= '9';
  }

  /** Integers are told apart. */
  lemma IntTextInjective(m: int, n: int)
    requires IntText(m) == IntText(n)
    ensures m == n
  {
    SignShows(m);
    SignShows(n);
    if m < 0 {
      CutSame("-", Decimal(-m), "-", Decimal(-n));
      DecimalInjective(-m, -n);
    } else {
      DecimalInjective(m, n);
    }
  }
}
