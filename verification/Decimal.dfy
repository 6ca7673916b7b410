/** Numbers as decimal text. */
module Decimal {

  function Digit(d: int): char
    requires 0 <= d < 10
  {
    "0123456789"[d]
  }

  function Digits(n: nat): (s: string)
    ensures s != [] && forall i :: 0 <= i < |s| ==> '0' <= s[i] <= '9'
  {
    if n < 10 then [Digit(n)] else Digits(n / 10) + [Digit(n % 10)]
  }

  /** `std::to_string`. */
  function ToString(n: int): string {
    if n < 0 then "-" + Digits(-n) else Digits(n)
  }

  function FromDigits(s: string): int {
    if s == [] then 0 else FromDigits(s[..|s| - 1]) * 10 + (s[|s| - 1] as int - '0' as int)
  }

  function FromString(s: string): int {
    if s != [] && s[0] == '-' then -FromDigits(s[1..]) else FromDigits(s)
  }

  lemma {:induction false} DigitsBack(n: nat)
    ensures FromDigits(Digits(n)) == n
  {
    if n >= 10 { DigitsBack(n / 10); }
  }

  /** Reading a printed number gives it back, so printing is injective. */
  lemma ToStringBack(n: int)
    ensures FromString(ToString(n)) == n
    ensures '_' !in ToString(n)
  {
    DigitsBack(if n < 0 then -n else n);
    if n < 0 { assert ToString(n)[1..] == Digits(-n); }
  }

  /** The decimal text of a number: digits, without a leading zero unless it is the only digit. */
  predicate Canonical(s: string) {
    s != [] && (forall i :: 0 <= i < |s| ==> '0' <= s[i] <= '9') && (|s| > 1 ==> s[0] != '0')
  }

  lemma {:induction false} DigitsCanonical(n: nat)
    ensures Canonical(Digits(n)) && (n > 0 ==> Digits(n)[0] != '0')
  {
    if n >= 10 { DigitsCanonical(n / 10); }
  }

  lemma DigitsStep(m: nat, d: nat)
    requires d < 10
    ensures Digits(m * 10 + d) == if m == 0 then [Digit(d)] else Digits(m) + [Digit(d)]
  {
    assert (m * 10 + d) / 10 == m && (m * 10 + d) % 10 == d;
  }

  lemma DigitOf(c: char)
    requires '0' <= c <= '9'
    ensures 0 <= c as int - '0' as int < 10 && Digit(c as int - '0' as int) == c
  {
  }

  lemma {:induction false} CanonicalIsDigits(s: string)
    requires Canonical(s)
    ensures FromDigits(s) >= 0 && Digits(FromDigits(s)) == s && (s[0] != '0' ==> FromDigits(s) > 0)
  {
    var init, last := s[..|s| - 1], s[|s| - 1];
    DigitOf(last);
    assert s == init + [last];
    if |s| == 1 {
      assert init == [] && FromDigits(init) == 0;
      DigitsStep(0, last as int - '0' as int);
    } else {
      CanonicalIsDigits(init);
      DigitsStep(FromDigits(init), last as int - '0' as int);
    }
  }
}
