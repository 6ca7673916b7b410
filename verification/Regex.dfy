/** Regular expressions, the strings they match as a whole, and laws to take matches apart. */
module Regex {

  datatype Re =
    | Literal(c: char)
    | Class(chars: set<char>)
    | Cat(left: Re, right: Re)
    | Alt(left: Re, right: Re)
    | Group(inner: Re)
    | Times(inner: Re, min: nat, max: nat)

  const DIGITS := {'0', '1', '2', '3', '4', '5', '6', '7', '8', '9'}
  const HEX := DIGITS + {'a', 'b', 'c', 'd', 'e', 'f', 'A', 'B', 'C', 'D', 'E', 'F'}

  ghost predicate Matches(r: Re, s: string)
    decreases r, 0, 1
  {
    match r
    case Literal(c) => s == [c]
    case Class(chars) => |s| == 1 && s[0] in chars
    case Cat(a, b) => exists i: nat :: SplitsAt(a, b, s, i)
    case Alt(a, b) => Matches(a, s) || Matches(b, s)
    case Group(a) => Matches(a, s)
    case Times(a, min, max) => MatchesTimes(a, min, max, s)
  }

  ghost predicate SplitsAt(a: Re, b: Re, s: string, i: nat)
    decreases Cat(a, b), 0, 0
  {
    i <= |s| && Matches(a, s[..i]) && Matches(b, s[i..])
  }

  function Less(n: nat): nat {
    if n == 0 then 0 else n - 1
  }

  ghost predicate MatchesTimes(a: Re, min: nat, max: nat, s: string)
    decreases a, max + 1, 1
  {
    (min == 0 && s == []) || (max > 0 && exists i: nat :: StartsAt(a, min, max, s, i))
  }

  ghost predicate StartsAt(a: Re, min: nat, max: nat, s: string, i: nat)
    requires max > 0
    decreases a, max + 1, 0
  {
    i <= |s| && Matches(a, s[..i]) && MatchesTimes(a, Less(min), max - 1, s[i..])
  }

  lemma CatIntro(a: Re, b: Re, s: string, t: string)
    requires Matches(a, s) && Matches(b, t)
    ensures Matches(Cat(a, b), s + t)
  {
    assert (s + t)[..|s|] == s && (s + t)[|s|..] == t;
    assert SplitsAt(a, b, s + t, |s|);
  }

  lemma CatElim(a: Re, b: Re, s: string) returns (x: string, y: string)
    requires Matches(Cat(a, b), s)
    ensures s == x + y && Matches(a, x) && Matches(b, y)
  {
    var i: nat :| SplitsAt(a, b, s, i);
    x, y := s[..i], s[i..];
  }

  /** One character in front. */
  lemma CharCat(a: Re, b: Re, s: string)
    requires a.Class? || a.Literal?
    ensures Matches(Cat(a, b), s) <==> s != [] && Matches(a, s[..1]) && Matches(b, s[1..])
  {
    if Matches(Cat(a, b), s) {
      var x, y := CatElim(a, b, s);
      assert x == s[..1] && y == s[1..];
    }
    if s != [] && Matches(a, s[..1]) && Matches(b, s[1..]) { assert SplitsAt(a, b, s, 1); }
  }

  lemma TimesIntro(a: Re, min: nat, max: nat, s: string, t: string)
    requires max > 0 && Matches(a, s) && MatchesTimes(a, Less(min), max - 1, t)
    ensures MatchesTimes(a, min, max, s + t)
  {
    assert (s + t)[..|s|] == s && (s + t)[|s|..] == t;
    assert StartsAt(a, min, max, s + t, |s|);
  }

  lemma TimesElim(a: Re, min: nat, max: nat, s: string) returns (x: string, y: string)
    requires MatchesTimes(a, min, max, s) && !(min == 0 && s == [])
    ensures max > 0 && s == x + y && Matches(a, x) && MatchesTimes(a, Less(min), max - 1, y)
  {
    var i: nat :| StartsAt(a, min, max, s, i);
    x, y := s[..i], s[i..];
  }

  predicate AllIn(s: string, chars: set<char>) {
    forall i :: 0 <= i < |s| ==> s[i] in chars
  }

  /** A repeated class matches the strings of its characters with a length in the range. */
  lemma {:induction false} ClassTimes(chars: set<char>, min: nat, max: nat, s: string)
    requires min <= max
    ensures MatchesTimes(Class(chars), min, max, s) <==> min <= |s| <= max && AllIn(s, chars)
    decreases max
  {
    var c := Class(chars);
    var less := Less(min);
    if max > 0 {
      if MatchesTimes(c, min, max, s) && !(min == 0 && s == []) {
        var x, y := TimesElim(c, min, max, s);
        ClassTimes(chars, less, max - 1, y);
        assert forall i :: 1 <= i < |s| ==> s[i] == y[i - 1];
      }
      if min <= |s| <= max && AllIn(s, chars) && s != [] {
        ClassTimes(chars, less, max - 1, s[1..]);
        TimesIntro(c, min, max, s[..1], s[1..]);
        assert s == s[..1] + s[1..];
      }
    }
  }
}
