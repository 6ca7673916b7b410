/** The address recognisers of the firewall rules and of the address utilities, and exactly what they accept. */
module IpAddress {
  import opened Decimal
  import opened Regex

  // ----- The patterns -----

  const D := Class(DIGITS)
  const TO4 := Class({'0', '1', '2', '3', '4'})
  const TO5 := Class({'0', '1', '2', '3', '4', '5'})
  const TO2 := Class({'0', '1', '2'})
  const TO8 := Class(DIGITS - {'9'})
  const FROM1 := Class(DIGITS - {'0'})
  const ONE_OR_TWO := Class({'1', '2'})
  const HEX4 := Times(Class(HEX), 0, 4)

  const OVER_200 := Cat(Literal('2'), Group(Alt(Cat(TO4, D), Cat(Literal('5'), TO5))))
  const OVER_100 := Cat(Literal('1'), Cat(D, D))
  const TWO_DIGITS := Cat(FROM1, D)
  const OCTET := Alt(Alt(Alt(OVER_200, OVER_100), TWO_DIGITS), D)

  const IP := Cat(Times(Group(Cat(Group(OCTET), Literal('.'))), 3, 3), Group(OCTET))

  const MASK := Alt(Alt(Cat(Literal('3'), TO2), Cat(ONE_OR_TWO, D)), D)

  const IP_MASK := Cat(IP, Cat(Literal('/'), Group(MASK)))

  const IPV6 := Cat(Times(Group(Cat(HEX4, Literal(':'))), 2, 7), Group(HEX4))

  const PREFIX := Alt(Alt(Cat(Literal('1'), Cat(TO2, TO8)), TWO_DIGITS), FROM1)

  const IPV6_MASK := Cat(IPV6, Cat(Literal('/'), Group(PREFIX)))

  const FULL_HEX4 := Times(Class(HEX), 4, 4)
  const FULL_IPV6 := Cat(Times(Group(Cat(FULL_HEX4, Literal(':'))), 7, 7), FULL_HEX4)

  // ----- The recognisers -----

  datatype Family = FAMILY_INVALID | FAMILY_IPV4 | FAMILY_IPV6

  ghost predicate IpIsLegal(ip: string, family: Family, notIpSegment: bool) {
    || (family == FAMILY_IPV4 && (Matches(IP, ip) || (notIpSegment && Matches(IP_MASK, ip))))
    || (family == FAMILY_IPV6 && (Matches(IPV6, ip) || (notIpSegment && Matches(IPV6_MASK, ip))))
  }

  /** The position of the first `c`, or the length. */
  function Find(s: string, c: char): (i: nat)
    ensures i <= |s| && c !in s[..i] && (i < |s| ==> s[i] == c)
  {
    if s == [] || s[0] == c then 0
    else
      assert forall i :: 0 <= i < Find(s[1..], c) ==> s[1..][i] in s[1..][..Find(s[1..], c)];
      Find(s[1..], c) + 1
  }

  ghost predicate IpAddressIsLegal(ip: string, family: Family) {
    var idx := Find(ip, '-');
    if idx == |ip| then IpIsLegal(ip, family, true)
    else IpIsLegal(ip[..idx], family, false) && IpIsLegal(ip[idx + 1..], family, false)
  }

  ghost predicate IsValidIPv4(ip: string) {
    ip != [] && Matches(IP, ip)
  }

  ghost predicate IsValidIPv6(ip: string) {
    ip != [] && Matches(FULL_IPV6, ip)
  }

  // ----- IPv4 -----

  /** Octets in characters. */
  predicate OctetShape(s: string) {
    || (|s| == 1 && s[0] in DIGITS)
    || (|s| == 2 && s[0] in DIGITS - {'0'} && s[1] in DIGITS)
    || (|s| == 3 && s[0] == '1' && s[1] in DIGITS && s[2] in DIGITS)
    || (|s| == 3 && s[0] == '2' && s[1] in {'0', '1', '2', '3', '4'} && s[2] in DIGITS)
    || (|s| == 3 && s[0] == '2' && s[1] == '5' && s[2] in {'0', '1', '2', '3', '4', '5'})
  }

  /** The text of a number from `lo` to `hi`. */
  ghost predicate IsNumber(s: string, lo: int, hi: int) {
    exists n: nat :: lo <= n <= hi && s == Digits(n)
  }

  lemma Over200Matches(s: string)
    ensures Matches(OVER_200, s) <==>
            |s| == 3 && s[0] == '2' && ((s[1] in {'0', '1', '2', '3', '4'} && s[2] in DIGITS)
                                        || (s[1] == '5' && s[2] in {'0', '1', '2', '3', '4', '5'}))
  {
    var tail := Alt(Cat(TO4, D), Cat(Literal('5'), TO5));
    CharCat(Literal('2'), Group(tail), s);
    if s != [] {
      CharCat(TO4, D, s[1..]);
      CharCat(Literal('5'), TO5, s[1..]);
      assert Matches(Group(tail), s[1..]) <==> Matches(tail, s[1..]);
    }
  }

  lemma TwoClasses(a: Re, b: Re, s: string)
    requires a.Class? && b.Class?
    ensures Matches(Cat(a, b), s) <==> |s| == 2 && s[0] in a.chars && s[1] in b.chars
  {
    CharCat(a, b, s);
  }

  lemma Over100Matches(s: string)
    ensures Matches(OVER_100, s) <==> |s| == 3 && s[0] == '1' && s[1] in DIGITS && s[2] in DIGITS
  {
    CharCat(Literal('1'), Cat(D, D), s);
    if s != [] { TwoClasses(D, D, s[1..]); }
  }

  lemma OctetMatches(s: string)
    ensures Matches(OCTET, s) <==> OctetShape(s)
  {
    Over200Matches(s);
    Over100Matches(s);
    TwoClasses(FROM1, D, s);
    AltMatches(OVER_200, OVER_100, TWO_DIGITS, D, s);
  }

  lemma AltMatches(a: Re, b: Re, c: Re, d: Re, s: string)
    ensures Matches(Alt(Alt(Alt(a, b), c), d), s) <==> Matches(a, s) || Matches(b, s) || Matches(c, s) || Matches(d, s)
  {
    assert Matches(Alt(Alt(a, b), c), s) <==> Matches(a, s) || Matches(b, s) || Matches(c, s);
  }

  lemma SmallValue(s: string)
    requires 1 <= |s| <= 3
    ensures |s| == 1 ==> FromDigits(s) == s[0] as int - '0' as int
    ensures |s| == 2 ==> FromDigits(s) == (s[0] as int - '0' as int) * 10 + (s[1] as int - '0' as int)
    ensures |s| == 3 ==>
            FromDigits(s) ==
              ((s[0] as int - '0' as int) * 10 + (s[1] as int - '0' as int)) * 10 + (s[2] as int - '0' as int)
  {
    assert s[..1][..0] == [];
    if |s| == 1 { assert s[..1] == s; }
    if |s| == 2 { assert s[..|s| - 1] == s[..1]; }
    if |s| == 3 { assert s[..2][..1] == s[..1]; }
  }

  lemma SmallDigits(n: nat)
    requires n < 1000
    ensures n < 10 ==> Digits(n) == [Digit(n)]
    ensures 10 <= n < 100 ==> Digits(n) == [Digit(n / 10), Digit(n % 10)]
    ensures 100 <= n ==> Digits(n) == [Digit(n / 100), Digit(n / 10 % 10), Digit(n % 10)]
  {
    if 100 <= n { assert n / 10 / 10 == n / 100; }
  }

  /** Canonical text of up to three digits, read as a number. */
  lemma SmallNumber(s: string, lo: nat, hi: nat)
    requires hi < 1000
    ensures IsNumber(s, lo, hi) <==> |s| <= 3 && Canonical(s) && lo <= FromDigits(s) <= hi
  {
    if IsNumber(s, lo, hi) {
      var n: nat :| lo <= n <= hi && s == Digits(n);
      SmallDigits(n);
      DigitsCanonical(n);
      DigitsBack(n);
    }
    if Canonical(s) { CanonicalIsDigits(s); }
  }

  lemma DigitChars(s: string)
    ensures Canonical(s) <==> s != [] && AllIn(s, DIGITS) && (|s| > 1 ==> s[0] != '0')
  {
  }

  lemma ShapeIsNumber(s: string)
    requires 1 <= |s| <= 3
    ensures OctetShape(s) <==> Canonical(s) && FromDigits(s) <= 255
  {
    SmallValue(s);
    DigitChars(s);
  }

  lemma OctetIs(s: string)
    ensures Matches(OCTET, s) <==> IsNumber(s, 0, 255)
  {
    OctetMatches(s);
    SmallNumber(s, 0, 255);
    if 1 <= |s| <= 3 { ShapeIsNumber(s); }
    if Canonical(s) { CanonicalIsDigits(s); }
  }

  lemma MaskMatches(s: string)
    ensures Matches(MASK, s) <==>
            || (|s| == 2 && s[0] == '3' && s[1] in {'0', '1', '2'})
            || (|s| == 2 && s[0] in {'1', '2'} && s[1] in DIGITS)
            || (|s| == 1 && s[0] in DIGITS)
  {
    CharCat(Literal('3'), TO2, s);
    TwoClasses(ONE_OR_TWO, D, s);
    assert Matches(Alt(Cat(Literal('3'), TO2), Cat(ONE_OR_TWO, D)), s) <==>
           Matches(Cat(Literal('3'), TO2), s) || Matches(Cat(ONE_OR_TWO, D), s);
  }

  lemma MaskIs(s: string)
    ensures Matches(MASK, s) <==> IsNumber(s, 0, 32)
  {
    MaskMatches(s);
    SmallNumber(s, 0, 32);
    if 1 <= |s| <= 3 { SmallValue(s); }
  }

  /** Four octets, each in canonical decimal. */
  ghost predicate IsDotted(s: string, a: nat, b: nat, c: nat, d: nat) {
    a <= 255 && b <= 255 && c <= 255 && d <= 255
    && s == Digits(a) + "." + (Digits(b) + "." + (Digits(c) + "." + Digits(d)))
  }

  ghost predicate IsPlainIpv4(s: string) {
    exists a: nat, b: nat, c: nat, d: nat :: IsDotted(s, a, b, c, d)
  }

  ghost predicate IsMaskedIpv4(s: string) {
    exists address: string, mask: nat :: IsPlainIpv4(address) && mask <= 32 && s == address + ("/" + Digits(mask))
  }

  const OCTET_DOT := Group(Cat(Group(OCTET), Literal('.')))

  /** One octet and its dot in front of the rest. */
  lemma DottedElim(n: nat, s: string) returns (a: nat, rest: string)
    requires n > 0 && MatchesTimes(OCTET_DOT, n, n, s)
    ensures a <= 255 && s == Digits(a) + "." + rest && MatchesTimes(OCTET_DOT, n - 1, n - 1, rest)
  {
    var x, y := TimesElim(OCTET_DOT, n, n, s);
    var o, dot := CatElim(Group(OCTET), Literal('.'), x);
    OctetIs(o);
    a :| a <= 255 && o == Digits(a);
    rest := y;
  }

  lemma DottedIntro(n: nat, a: nat, rest: string)
    requires a <= 255 && MatchesTimes(OCTET_DOT, n, n, rest)
    ensures MatchesTimes(OCTET_DOT, n + 1, n + 1, Digits(a) + "." + rest)
  {
    OctetIs(Digits(a));
    CatIntro(Group(OCTET), Literal('.'), Digits(a), ".");
    TimesIntro(OCTET_DOT, n + 1, n + 1, Digits(a) + ".", rest);
  }

  lemma Ipv4Elim(s: string)
    requires Matches(IP, s)
    ensures IsPlainIpv4(s)
  {
    var x, y := CatElim(Times(OCTET_DOT, 3, 3), Group(OCTET), s);
    assert MatchesTimes(OCTET_DOT, 3, 3, x);
    var a, r := DottedElim(3, x);
    var b, q := DottedElim(2, r);
    var c, p := DottedElim(1, q);
    assert p == [];
    OctetIs(y);
    var d: nat :| d <= 255 && y == Digits(d);
    assert s == Digits(a) + "." + (Digits(b) + "." + (Digits(c) + "." + Digits(d)));
    assert IsDotted(s, a, b, c, d);
  }

  lemma DotsRegroup(a: string, b: string, c: string, d: string)
    ensures a + "." + (b + "." + (c + "." + d)) == (a + "." + (b + "." + (c + "." + []))) + d
  {
  }

  lemma ThreeDots(a: nat, b: nat, c: nat)
    requires a <= 255 && b <= 255 && c <= 255
    ensures MatchesTimes(OCTET_DOT, 3, 3, Digits(a) + "." + (Digits(b) + "." + (Digits(c) + "." + [])))
  {
    DottedIntro(0, c, []);
    DottedIntro(1, b, Digits(c) + "." + []);
    DottedIntro(2, a, Digits(b) + "." + (Digits(c) + "." + []));
  }

  lemma Ipv4Intro(s: string, a: nat, b: nat, c: nat, d: nat)
    requires IsDotted(s, a, b, c, d)
    ensures Matches(IP, s)
  {
    var front := Digits(a) + "." + (Digits(b) + "." + (Digits(c) + "." + []));
    ThreeDots(a, b, c);
    OctetIs(Digits(d));
    CatIntro(Times(OCTET_DOT, 3, 3), Group(OCTET), front, Digits(d));
    DotsRegroup(Digits(a), Digits(b), Digits(c), Digits(d));
  }

  lemma PlainIpv4Is(s: string)
    ensures Matches(IP, s) <==> IsPlainIpv4(s)
  {
    if Matches(IP, s) { Ipv4Elim(s); }
    if IsPlainIpv4(s) {
      var a: nat, b: nat, c: nat, d: nat :| IsDotted(s, a, b, c, d);
      Ipv4Intro(s, a, b, c, d);
    }
  }

  /** An address with `/` and a number of a pattern behind it. */
  lemma SlashMatches(address: Re, mask: Re, s: string)
    ensures Matches(Cat(address, Cat(Literal('/'), Group(mask))), s) <==>
            exists x: string, y: string :: Matches(address, x) && Matches(mask, y) && s == x + ("/" + y)
  {
    var tail := Cat(Literal('/'), Group(mask));
    if Matches(Cat(address, tail), s) {
      var x, t := CatElim(address, tail, s);
      var slash, y := CatElim(Literal('/'), Group(mask), t);
      assert Matches(address, x) && Matches(mask, y) && s == x + ("/" + y);
    }
    if x: string, y: string :| Matches(address, x) && Matches(mask, y) && s == x + ("/" + y) {
      CatIntro(Literal('/'), Group(mask), "/", y);
      CatIntro(address, tail, x, "/" + y);
    }
  }

  lemma MaskedIpv4Is(s: string)
    ensures Matches(IP_MASK, s) <==> IsMaskedIpv4(s)
  {
    SlashMatches(IP, MASK, s);
    if x: string, y: string :| Matches(IP, x) && Matches(MASK, y) && s == x + ("/" + y) {
      PlainIpv4Is(x);
      MaskIs(y);
      var n: nat :| n <= 32 && y == Digits(n);
      assert IsPlainIpv4(x) && s == x + ("/" + Digits(n));
    }
    if x: string, n: nat :| IsPlainIpv4(x) && n <= 32 && s == x + ("/" + Digits(n)) {
      PlainIpv4Is(x);
      MaskIs(Digits(n));
      assert IsNumber(Digits(n), 0, 32);
    }
  }

  // ----- Ranges -----

  lemma NoCharIn(c: char, s: string, t: string)
    requires c !in s && c !in t
    ensures c !in s + t
  {
  }

  lemma DottedHasNo(s: string, c: char)
    requires IsPlainIpv4(s) && !('0' <= c <= '9') && c != '.'
    ensures c !in s
  {
    var a: nat, b: nat, c1: nat, d: nat :| IsDotted(s, a, b, c1, d);
    NoCharIn(c, Digits(c1) + ".", Digits(d));
    NoCharIn(c, Digits(b) + ".", Digits(c1) + "." + Digits(d));
    NoCharIn(c, Digits(a) + ".", Digits(b) + "." + (Digits(c1) + "." + Digits(d)));
  }

  lemma FindIs(s: string, x: string, y: string, c: char)
    requires s == x + [c] + y && c !in x
    ensures Find(s, c) == |x| && s[..|x|] == x && s[|x| + 1..] == y
  {
    assert s[|x|] == c && s[..|x|] == x;
  }

  lemma FindNone(s: string, c: char)
    ensures Find(s, c) == |s| <==> c !in s
  {
    var i := Find(s, c);
    if i == |s| { assert s[..i] == s; }
  }

  /** Without a dash the string is judged whole, masks included; with one its two sides are judged without masks. */
  lemma LegalBySides(ip: string, x: string, y: string, family: Family)
    requires '-' !in x
    ensures ip == x + ['-'] + y ==>
            (IpAddressIsLegal(ip, family) <==> IpIsLegal(x, family, false) && IpIsLegal(y, family, false))
    ensures '-' !in ip ==> (IpAddressIsLegal(ip, family) <==> IpIsLegal(ip, family, true))
  {
    FindNone(ip, '-');
    if ip == x + ['-'] + y { FindIs(ip, x, y, '-'); }
  }

  lemma Sides(ip: string) returns (x: string, y: string)
    requires '-' in ip
    ensures ip == x + ['-'] + y && '-' !in x
  {
    var idx := Find(ip, '-');
    FindNone(ip, '-');
    x, y := ip[..idx], ip[idx + 1..];
  }

  ghost predicate IsRange(ip: string, x: string, y: string) {
    ip == x + ['-'] + y
  }

  lemma RangeHasDash(ip: string, x: string, y: string)
    requires IsRange(ip, x, y)
    ensures '-' in ip
  {
    assert ip[|x|] == '-';
  }

  lemma SameSides(ip: string, x: string, y: string, v: string, w: string)
    requires IsRange(ip, x, y) && IsRange(ip, v, w) && '-' !in x && '-' !in v
    ensures x == v && y == w
  {
    FindIs(ip, x, y, '-');
    FindIs(ip, v, w, '-');
  }

  lemma Ipv4Legal(s: string)
    ensures IpIsLegal(s, FAMILY_IPV4, false) <==> IsPlainIpv4(s)
    ensures IpIsLegal(s, FAMILY_IPV4, true) <==> IsPlainIpv4(s) || IsMaskedIpv4(s)
  {
    PlainIpv4Is(s);
    MaskedIpv4Is(s);
  }

  lemma Ipv4Range(ip: string)
    requires '-' in ip
    ensures IpAddressIsLegal(ip, FAMILY_IPV4) <==>
            exists x: string, y: string :: IsPlainIpv4(x) && IsPlainIpv4(y) && IsRange(ip, x, y)
  {
    var x, y := Sides(ip);
    LegalBySides(ip, x, y, FAMILY_IPV4);
    Ipv4Legal(x);
    Ipv4Legal(y);
    assert IsRange(ip, x, y);
    forall v, w | IsPlainIpv4(v) && IsPlainIpv4(w) && IsRange(ip, v, w) ensures v == x && w == y {
      DottedHasNo(v, '-');
      SameSides(ip, x, y, v, w);
    }
  }

  /** IPv4, exactly: canonical dotted decimal, the same with a mask 0..32, or two plain addresses joined by `-`. */
  lemma Ipv4LegalIff(ip: string)
    ensures IpAddressIsLegal(ip, FAMILY_IPV4) <==>
            || IsPlainIpv4(ip) || IsMaskedIpv4(ip)
            || exists x: string, y: string :: IsPlainIpv4(x) && IsPlainIpv4(y) && IsRange(ip, x, y)
  {
    if IsPlainIpv4(ip) { DottedHasNo(ip, '-'); }
    if IsMaskedIpv4(ip) { MaskedHasNoDash(ip); }
    if '-' in ip {
      Ipv4Range(ip);
    } else {
      LegalBySides(ip, [], [], FAMILY_IPV4);
      Ipv4Legal(ip);
      forall x, y | IsRange(ip, x, y) ensures false { RangeHasDash(ip, x, y); }
    }
  }

  lemma MaskedHasNoDash(ip: string)
    requires IsMaskedIpv4(ip)
    ensures '-' !in ip
  {
    var x: string, n: nat :| IsPlainIpv4(x) && n <= 32 && ip == x + ("/" + Digits(n));
    DottedHasNo(x, '-');
    NoCharIn('-', x, "/" + Digits(n));
  }

  /** The address utility accepts exactly the plain form. */
  lemma ValidIpv4Iff(ip: string)
    ensures IsValidIPv4(ip) <==> IsPlainIpv4(ip)
  {
    PlainIpv4Is(ip);
    if IsPlainIpv4(ip) { var a: nat, b: nat, c: nat, d: nat :| IsDotted(ip, a, b, c, d); }
  }

  // ----- IPv6 -----

  /** What stands between the colons. */
  function Fields(s: string): (fields: seq<string>)
    ensures fields != []
  {
    var i := Find(s, ':');
    if i == |s| then [s] else [s[..i]] + Fields(s[i + 1..])
  }

  predicate IsHexField(f: string, lo: nat, hi: nat) {
    lo <= |f| <= hi && AllIn(f, HEX)
  }

  /** `lo` to `hi` hexadecimal digits in each of `least` to `most` fields. */
  ghost predicate IsColonHex(s: string, lo: nat, hi: nat, least: nat, most: nat) {
    least <= |Fields(s)| <= most && forall i :: 0 <= i < |Fields(s)| ==> IsHexField(Fields(s)[i], lo, hi)
  }

  lemma FieldsOf(f: string, rest: string)
    requires ':' !in f
    ensures Fields(f) == [f] && Fields(f + ":" + rest) == [f] + Fields(rest)
  {
    FindNone(f, ':');
    FindIs(f + ":" + rest, f, rest, ':');
  }

  lemma NoColonHex(s: string, lo: nat, hi: nat, least: nat, most: nat)
    requires ':' !in s
    ensures IsColonHex(s, lo, hi, least, most) <==> least <= 1 <= most && IsHexField(s, lo, hi)
  {
    FieldsOf(s, []);
    assert Fields(s)[0] == s;
  }

  lemma ConsColonHex(f: string, rest: string, lo: nat, hi: nat, least: nat, most: nat)
    requires ':' !in f
    ensures IsColonHex(f + ":" + rest, lo, hi, least, most) <==>
            most > 0 && IsHexField(f, lo, hi) && IsColonHex(rest, lo, hi, Less(least), most - 1)
  {
    FieldsOf(f, rest);
    var all, tail := Fields(f + ":" + rest), Fields(rest);
    assert all[0] == f && |all| == |tail| + 1 && forall i :: 0 <= i < |tail| ==> tail[i] == all[i + 1];
    if IsColonHex(f + ":" + rest, lo, hi, least, most) {
      assert IsHexField(all[0], lo, hi);
      forall i | 0 <= i < |tail| ensures IsHexField(tail[i], lo, hi) { assert IsHexField(all[i + 1], lo, hi); }
    }
    if most > 0 && IsHexField(f, lo, hi) && IsColonHex(rest, lo, hi, Less(least), most - 1) {
      forall i | 0 <= i < |all| ensures IsHexField(all[i], lo, hi) {
        if i > 0 { assert IsHexField(tail[i - 1], lo, hi); }
      }
    }
  }

  /** A string either has no colon or starts with a field and a colon. */
  lemma FirstField(s: string) returns (f: string, rest: string)
    ensures ':' !in f && |rest| <= |s|
    ensures if ':' in s then s == f + ":" + rest && |rest| < |s| else s == f
  {
    var i := Find(s, ':');
    FindNone(s, ':');
    f := s[..i];
    if i == |s| {
      rest := [];
    } else {
      rest := s[i + 1..];
      assert s == s[..i] + [s[i]] + s[i + 1..];
    }
  }

  ghost predicate ColonParts(h: Re, min: nat, max: nat, s: string) {
    exists x: string, y: string :: s == x + y && MatchesTimes(Group(Cat(h, Literal(':'))), min, max, x) && Matches(h, y)
  }

  lemma HexFieldIs(lo: nat, hi: nat, f: string)
    requires lo <= hi
    ensures Matches(Times(Class(HEX), lo, hi), f) <==> IsHexField(f, lo, hi)
    ensures IsHexField(f, lo, hi) ==> ':' !in f
  {
    ClassTimes(HEX, lo, hi, f);
  }

  lemma FieldElim(h: Re, min: nat, max: nat, s: string) returns (f: string, rest: string)
    requires MatchesTimes(Group(Cat(h, Literal(':'))), min, max, s) && !(min == 0 && s == [])
    ensures max > 0 && s == f + ":" + rest && Matches(h, f)
    ensures MatchesTimes(Group(Cat(h, Literal(':'))), Less(min), max - 1, rest)
  {
    var first;
    first, rest := TimesElim(Group(Cat(h, Literal(':'))), min, max, s);
    var colon;
    f, colon := CatElim(h, Literal(':'), first);
  }

  lemma {:induction false} ColonPartsElim(lo: nat, hi: nat, min: nat, max: nat, x: string, y: string)
    requires lo <= hi && min <= max && IsHexField(y, lo, hi)
    requires MatchesTimes(Group(Cat(Times(Class(HEX), lo, hi), Literal(':'))), min, max, x)
    ensures IsColonHex(x + y, lo, hi, min + 1, max + 1)
    decreases max
  {
    HexFieldIs(lo, hi, y);
    var h := Times(Class(HEX), lo, hi);
    if min == 0 && x == [] {
      assert x + y == y;
      NoColonHex(y, lo, hi, 1, max + 1);
    } else {
      var f, rest := FieldElim(h, min, max, x);
      HexFieldIs(lo, hi, f);
      ColonPartsElim(lo, hi, Less(min), max - 1, rest, y);
      JoinField(f, rest, y, lo, hi, min + 1, max + 1);
    }
  }

  lemma JoinField(f: string, rest: string, y: string, lo: nat, hi: nat, least: nat, most: nat)
    requires ':' !in f && IsHexField(f, lo, hi) && most > 0 && IsColonHex(rest + y, lo, hi, Less(least), most - 1)
    ensures IsColonHex(f + ":" + rest + y, lo, hi, least, most)
  {
    ConsColonHex(f, rest + y, lo, hi, least, most);
    assert f + ":" + rest + y == f + ":" + (rest + y);
  }

  lemma PartsCons(h: Re, min: nat, max: nat, f: string, rest: string)
    requires max > 0 && Matches(h, f) && ColonParts(h, Less(min), max - 1, rest)
    ensures ColonParts(h, min, max, f + ":" + rest)
  {
    var field := Group(Cat(h, Literal(':')));
    var x: string, y: string :| rest == x + y && MatchesTimes(field, Less(min), max - 1, x) && Matches(h, y);
    CatIntro(h, Literal(':'), f, ":");
    TimesIntro(field, min, max, f + ":", x);
    assert f + ":" + rest == (f + ":" + x) + y;
  }

  lemma {:induction false} ColonPartsIntro(lo: nat, hi: nat, min: nat, max: nat, s: string)
    requires lo <= hi && min <= max && IsColonHex(s, lo, hi, min + 1, max + 1)
    ensures ColonParts(Times(Class(HEX), lo, hi), min, max, s)
    decreases max
  {
    var h := Times(Class(HEX), lo, hi);
    var f, rest := FirstField(s);
    HexFieldIs(lo, hi, f);
    if ':' in s {
      ConsColonHex(f, rest, lo, hi, min + 1, max + 1);
      if max == 0 { FieldsNotEmpty(rest); }
      ColonPartsIntro(lo, hi, Less(min), max - 1, rest);
      PartsCons(h, min, max, f, rest);
    } else {
      NoColonHex(s, lo, hi, min + 1, max + 1);
      assert s == [] + s && MatchesTimes(Group(Cat(h, Literal(':'))), min, max, []);
    }
  }

  lemma FieldsNotEmpty(s: string)
    ensures |Fields(s)| > 0
  {
  }

  lemma ColonHexIs(lo: nat, hi: nat, min: nat, max: nat, s: string)
    requires lo <= hi && min <= max
    ensures ColonParts(Times(Class(HEX), lo, hi), min, max, s) <==> IsColonHex(s, lo, hi, min + 1, max + 1)
  {
    var h := Times(Class(HEX), lo, hi);
    if ColonParts(h, min, max, s) {
      var x: string, y: string :| s == x + y && MatchesTimes(Group(Cat(h, Literal(':'))), min, max, x) && Matches(h, y);
      HexFieldIs(lo, hi, y);
      ColonPartsElim(lo, hi, min, max, x, y);
    }
    if IsColonHex(s, lo, hi, min + 1, max + 1) { ColonPartsIntro(lo, hi, min, max, s); }
  }

  lemma CatIsColonParts(h: Re, last: Re, min: nat, max: nat, s: string)
    requires last == h || last == Group(h)
    ensures Matches(Cat(Times(Group(Cat(h, Literal(':'))), min, max), last), s) <==> ColonParts(h, min, max, s)
  {
    var fields := Times(Group(Cat(h, Literal(':'))), min, max);
    if Matches(Cat(fields, last), s) {
      var x, y := CatElim(fields, last, s);
      assert MatchesTimes(Group(Cat(h, Literal(':'))), min, max, x) && Matches(h, y);
    }
    if x: string, y: string :| s == x + y && MatchesTimes(Group(Cat(h, Literal(':'))), min, max, x) && Matches(h, y) {
      CatIntro(fields, last, x, y);
    }
  }

  /** The plain pattern: three to eight fields of at most four hexadecimal digits. */
  ghost predicate IsPlainIpv6(s: string) {
    IsColonHex(s, 0, 4, 3, 8)
  }

  lemma PlainIpv6Is(s: string)
    ensures Matches(IPV6, s) <==> IsPlainIpv6(s)
  {
    CatIsColonParts(HEX4, Group(HEX4), 2, 7, s);
    ColonHexIs(0, 4, 2, 7, s);
  }

  /** The address utility: eight fields of exactly four. */
  lemma ValidIpv6Iff(s: string)
    ensures IsValidIPv6(s) <==> IsColonHex(s, 4, 4, 8, 8)
  {
    CatIsColonParts(FULL_HEX4, FULL_HEX4, 7, 7, s);
    ColonHexIs(4, 4, 7, 7, s);
    FieldsOf([], []);
  }

  /** The prefixes 109 and 119 are missing, and so is 0. */
  ghost predicate IsPrefix(s: string) {
    exists n: nat :: 1 <= n <= 128 && n != 109 && n != 119 && s == Digits(n)
  }

  lemma PrefixMatches(s: string)
    ensures Matches(PREFIX, s) <==>
            || (|s| == 3 && s[0] == '1' && s[1] in {'0', '1', '2'} && s[2] in DIGITS - {'9'})
            || (|s| == 2 && s[0] in DIGITS - {'0'} && s[1] in DIGITS)
            || (|s| == 1 && s[0] in DIGITS - {'0'})
  {
    CharCat(Literal('1'), Cat(TO2, TO8), s);
    if s != [] { TwoClasses(TO2, TO8, s[1..]); }
    TwoClasses(FROM1, D, s);
    assert Matches(Alt(Cat(Literal('1'), Cat(TO2, TO8)), TWO_DIGITS), s) <==>
           Matches(Cat(Literal('1'), Cat(TO2, TO8)), s) || Matches(TWO_DIGITS, s);
  }

  lemma PrefixIs(s: string)
    ensures Matches(PREFIX, s) <==> IsPrefix(s)
  {
    PrefixMatches(s);
    PrefixNumber(s);
    if 1 <= |s| <= 3 { PrefixShape(s); }
  }

  lemma PrefixShape(s: string)
    requires 1 <= |s| <= 3
    ensures (Canonical(s) && 1 <= FromDigits(s) <= 128 && FromDigits(s) != 109 && FromDigits(s) != 119) <==>
            || (|s| == 3 && s[0] == '1' && s[1] in {'0', '1', '2'} && s[2] in DIGITS - {'9'})
            || (|s| == 2 && s[0] in DIGITS - {'0'} && s[1] in DIGITS)
            || (|s| == 1 && s[0] in DIGITS - {'0'})
  {
    SmallValue(s);
    DigitChars(s);
  }

  lemma PrefixNumber(s: string)
    ensures IsPrefix(s) <==>
            |s| <= 3 && Canonical(s) && 1 <= FromDigits(s) <= 128 && FromDigits(s) != 109 && FromDigits(s) != 119
  {
    SmallNumber(s, 1, 128);
    if IsPrefix(s) {
      var n: nat :| 1 <= n <= 128 && n != 109 && n != 119 && s == Digits(n);
      assert IsNumber(s, 1, 128);
      DigitsBack(n);
    }
    if Canonical(s) { CanonicalIsDigits(s); }
  }

  ghost predicate IsMaskedIpv6(s: string) {
    exists address: string, prefix: string :: IsPlainIpv6(address) && IsPrefix(prefix) && s == address + ("/" + prefix)
  }

  lemma MaskedIpv6Is(s: string)
    ensures Matches(IPV6_MASK, s) <==> IsMaskedIpv6(s)
  {
    SlashMatches(IPV6, PREFIX, s);
    if x: string, y: string :| Matches(IPV6, x) && Matches(PREFIX, y) && s == x + ("/" + y) {
      PlainIpv6Is(x);
      PrefixIs(y);
    }
    if x: string, y: string :| IsPlainIpv6(x) && IsPrefix(y) && s == x + ("/" + y) {
      PlainIpv6Is(x);
      PrefixIs(y);
    }
  }

  lemma {:induction false} ColonHexHasNo(s: string, lo: nat, hi: nat, least: nat, most: nat, c: char)
    requires IsColonHex(s, lo, hi, least, most) && c !in HEX && c != ':'
    ensures c !in s
    decreases |s|
  {
    var f, rest := FirstField(s);
    if ':' in s {
      ConsColonHex(f, rest, lo, hi, least, most);
      ColonHexHasNo(rest, lo, hi, Less(least), most - 1, c);
      NoCharIn(c, f, ":");
      NoCharIn(c, f + ":", rest);
    } else {
      NoColonHex(s, lo, hi, least, most);
    }
  }

  lemma MaskedIpv6HasNoDash(ip: string)
    requires IsMaskedIpv6(ip)
    ensures '-' !in ip
  {
    var x: string, y: string :| IsPlainIpv6(x) && IsPrefix(y) && ip == x + ("/" + y);
    ColonHexHasNo(x, 0, 4, 3, 8, '-');
    NoCharIn('-', x, "/" + y);
  }

  lemma Ipv6Legal(s: string)
    ensures IpIsLegal(s, FAMILY_IPV6, false) <==> IsPlainIpv6(s)
    ensures IpIsLegal(s, FAMILY_IPV6, true) <==> IsPlainIpv6(s) || IsMaskedIpv6(s)
  {
    PlainIpv6Is(s);
    MaskedIpv6Is(s);
  }

  lemma PlainIpv6HasNoDash(s: string)
    requires IsPlainIpv6(s)
    ensures '-' !in s
  {
    ColonHexHasNo(s, 0, 4, 3, 8, '-');
  }

  ghost predicate IsIpv6Range(ip: string, x: string, y: string) {
    IsPlainIpv6(x) && IsPlainIpv6(y) && IsRange(ip, x, y)
  }

  lemma Ipv6RangeSides(ip: string, x: string, y: string, v: string, w: string)
    requires IsRange(ip, x, y) && '-' !in x && IsIpv6Range(ip, v, w)
    ensures IsIpv6Range(ip, x, y)
  {
    PlainIpv6HasNoDash(v);
    SameSides(ip, x, y, v, w);
  }

  lemma Ipv6Range(ip: string)
    requires '-' in ip
    ensures IpAddressIsLegal(ip, FAMILY_IPV6) <==> exists x: string, y: string :: IsIpv6Range(ip, x, y)
  {
    var x, y := Sides(ip);
    assert IpAddressIsLegal(ip, FAMILY_IPV6) <==> IsIpv6Range(ip, x, y) by {
      LegalBySides(ip, x, y, FAMILY_IPV6);
      Ipv6Legal(x);
      Ipv6Legal(y);
    }
    if v: string, w: string :| IsIpv6Range(ip, v, w) { Ipv6RangeSides(ip, x, y, v, w); }
  }

  /** IPv6, exactly: the plain form, the plain form with a prefix, or two plain ones joined by `-`. */
  lemma Ipv6LegalIff(ip: string)
    ensures IpAddressIsLegal(ip, FAMILY_IPV6) <==>
            || IsPlainIpv6(ip) || IsMaskedIpv6(ip)
            || exists x: string, y: string :: IsIpv6Range(ip, x, y)
  {
    if IsPlainIpv6(ip) { PlainIpv6HasNoDash(ip); }
    if IsMaskedIpv6(ip) { MaskedIpv6HasNoDash(ip); }
    if '-' in ip {
      Ipv6Range(ip);
    } else {
      LegalBySides(ip, [], [], FAMILY_IPV6);
      Ipv6Legal(ip);
      forall x, y | IsRange(ip, x, y) ensures false { RangeHasDash(ip, x, y); }
    }
  }

  /** What the address utility takes for IPv6 is a legal IPv6 address here, and never an IPv4 one. */
  lemma ValidIpv6IsLegal(ip: string)
    requires IsValidIPv6(ip)
    ensures IpAddressIsLegal(ip, FAMILY_IPV6) && !IpAddressIsLegal(ip, FAMILY_IPV4) && !IsValidIPv4(ip)
  {
    ValidIpv6Iff(ip);
    Ipv6LegalIff(ip);
    Ipv4LegalIff(ip);
    ValidIpv4Iff(ip);
    assert IsPlainIpv6(ip);
    assert ':' in ip by { FindNone(ip, ':'); }
    if IsPlainIpv4(ip) { DottedHasNo(ip, ':'); }
    if IsMaskedIpv4(ip) {
      var x: string, n: nat :| IsPlainIpv4(x) && n <= 32 && ip == x + ("/" + Digits(n));
      DottedHasNo(x, ':');
      NoCharIn(':', x, "/" + Digits(n));
    }
    if x: string, y: string :| IsPlainIpv4(x) && IsPlainIpv4(y) && IsRange(ip, x, y) {
      DottedHasNo(x, ':');
      DottedHasNo(y, ':');
      NoCharIn(':', x + ['-'], y);
    }
  }
}
