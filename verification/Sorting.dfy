/** Sorting under a strict total order, as the standard library's sort, ordered set and ordered map do it. */
module Sorting {

  ghost predicate StrictTotal<T(!new)>(less: (T, T) -> bool) {
    && (forall a :: !less(a, a))
    && (forall a, b :: a != b ==> less(a, b) || less(b, a))
    && (forall a, b, c :: less(a, b) && less(b, c) ==> less(a, c))
  }

  ghost predicate Sorted<T>(s: seq<T>, less: (T, T) -> bool) {
    forall i, j :: 0 <= i < j < |s| ==> !less(s[j], s[i])
  }

  ghost predicate StrictlySorted<T>(s: seq<T>, less: (T, T) -> bool) {
    forall i, j :: 0 <= i < j < |s| ==> less(s[i], s[j])
  }

  /** After the elements that are not greater. */
  function Insert<T>(s: seq<T>, x: T, less: (T, T) -> bool): seq<T> {
    if s == [] then [x]
    else if less(x, s[|s| - 1]) then Insert(s[..|s| - 1], x, less) + [s[|s| - 1]]
    else s + [x]
  }

  function Sort<T>(s: seq<T>, less: (T, T) -> bool): seq<T> {
    if s == [] then [] else Insert(Sort(s[..|s| - 1], less), s[|s| - 1], less)
  }

  lemma {:induction false} InsertIs<T(!new)>(s: seq<T>, x: T, less: (T, T) -> bool)
    requires StrictTotal(less) && Sorted(s, less)
    ensures Sorted(Insert(s, x, less), less) && multiset(Insert(s, x, less)) == multiset(s) + multiset{x}
  {
    if s != [] {
      var init, last := s[..|s| - 1], s[|s| - 1];
      assert s == init + [last];
      if less(x, last) {
        InsertIs(init, x, less);
        var placed := Insert(init, x, less);
        forall i | 0 <= i < |placed| ensures !less(last, placed[i]) {
          assert placed[i] in multiset(placed);
          assert placed[i] == x || placed[i] in init;
        }
      }
    }
  }

  lemma {:induction false} SortIs<T(!new)>(s: seq<T>, less: (T, T) -> bool)
    requires StrictTotal(less)
    ensures Sorted(Sort(s, less), less) && multiset(Sort(s, less)) == multiset(s)
  {
    if s != [] {
      SortIs(s[..|s| - 1], less);
      InsertIs(Sort(s[..|s| - 1], less), s[|s| - 1], less);
      assert s == s[..|s| - 1] + [s[|s| - 1]];
    }
  }

  lemma LastIsGreatest<T(!new)>(s: seq<T>, x: T, less: (T, T) -> bool)
    requires StrictTotal(less) && Sorted(s, less) && s != [] && x in s
    ensures !less(s[|s| - 1], x)
  {
    var i :| 0 <= i < |s| && s[i] == x;
  }

  lemma SameLast<T(!new)>(s: seq<T>, t: seq<T>, less: (T, T) -> bool)
    requires StrictTotal(less) && Sorted(s, less) && Sorted(t, less) && multiset(s) == multiset(t) && s != [] && t != []
    ensures s[|s| - 1] == t[|t| - 1]
  {
    var x, y := s[|s| - 1], t[|t| - 1];
    assert x in multiset(s) && y in multiset(t);
    LastIsGreatest(s, y, less);
    LastIsGreatest(t, x, less);
  }

  lemma DropSame<T>(s: seq<T>, t: seq<T>, x: T)
    requires multiset(s + [x]) == multiset(t + [x])
    ensures multiset(s) == multiset(t)
  {
    assert multiset(s) == multiset(s + [x]) - multiset{x};
    assert multiset(t) == multiset(t + [x]) - multiset{x};
  }

  lemma SameLength<T>(s: seq<T>, t: seq<T>)
    requires multiset(s) == multiset(t)
    ensures |s| == |t|
  {
    assert |multiset(s)| == |s| && |multiset(t)| == |t|;
  }

  /** Sorting has one result. */
  lemma {:induction false} SortedUnique<T(!new)>(s: seq<T>, t: seq<T>, less: (T, T) -> bool)
    requires StrictTotal(less) && Sorted(s, less) && Sorted(t, less) && multiset(s) == multiset(t)
    ensures s == t
  {
    SameLength(s, t);
    if s != [] {
      var s', t', x := s[..|s| - 1], t[..|t| - 1], s[|s| - 1];
      SameLast(s, t, less);
      assert s == s' + [x] && t == t' + [x];
      DropSame(s', t', x);
      SortedUnique(s', t', less);
    }
  }

  /** The elements of a set in order, as an ordered container is walked. */
  method InOrder<T(==, !new)>(elements: set<T>, less: (T, T) -> bool) returns (list: seq<T>)
    requires StrictTotal(less)
    ensures StrictlySorted(list, less) && (forall x :: x in list <==> x in elements)
  {
    list := [];
    var todo := elements;
    while todo != {}
      invariant todo <= elements && Sorted(list, less)
      invariant multiset(list) == multiset(elements - todo)
      decreases |todo|
    {
      var x :| x in todo;
      InsertIs(list, x, less);
      list := Insert(list, x, less);
      assert elements - (todo - {x}) == elements - todo + {x};
      todo := todo - {x};
    }
    assert elements - {} == elements;
    SortedOnce(list, elements, less);
  }

  lemma SortedOnce<T(!new)>(list: seq<T>, elements: set<T>, less: (T, T) -> bool)
    requires StrictTotal(less) && Sorted(list, less) && multiset(list) == multiset(elements)
    ensures StrictlySorted(list, less) && (forall x :: x in list <==> x in elements)
  {
    forall x ensures x in list <==> x in elements { assert x in multiset(list) <==> x in multiset(elements); }
    forall i, j | 0 <= i < j < |list| ensures list[i] != list[j] {
      TwiceCounted(list, i, j);
    }
  }

  lemma TwiceCounted<T>(list: seq<T>, i: nat, j: nat)
    requires i < j < |list|
    ensures list[i] == list[j] ==> multiset(list)[list[i]] >= 2
  {
    if list[i] == list[j] {
      assert list == list[..i] + [list[i]] + list[i + 1..j] + [list[j]] + list[j + 1..];
    }
  }

  ghost predicate SameMembers<T(!new)>(s: seq<T>, t: seq<T>) {
    forall x :: x in s <==> x in t
  }

  lemma DropLast<T(!new)>(s: seq<T>, less: (T, T) -> bool, z: T)
    requires (forall a :: !less(a, a)) && StrictlySorted(s, less) && s != []
    ensures z in s[..|s| - 1] <==> z in s && z != s[|s| - 1]
  {
    var init, x := s[..|s| - 1], s[|s| - 1];
    if z in init { var i :| 0 <= i < |init| && init[i] == z; assert less(s[i], s[|s| - 1]); }
    assert s == init + [x];
  }

  lemma StrictLast<T(!new)>(s: seq<T>, t: seq<T>, less: (T, T) -> bool)
    requires (forall a :: !less(a, a)) && (forall a, b, c :: less(a, b) && less(b, c) ==> less(a, c))
    requires StrictlySorted(s, less) && StrictlySorted(t, less) && s != [] && t != [] && SameMembers(s, t)
    ensures s[|s| - 1] == t[|t| - 1]
    ensures SameMembers(s[..|s| - 1], t[..|t| - 1])
  {
    var x, y := s[|s| - 1], t[|t| - 1];
    assert x in s && y in t;
    assert x in t && y in s;
    assert x == y;
    var s', t' := s[..|s| - 1], t[..|t| - 1];
    forall z ensures z in s' <==> z in t' {
      DropLast(s, less, z);
      DropLast(t, less, z);
    }
  }

  /** A strictly sorted list is determined by its elements. */
  lemma {:induction false} StrictUnique<T(!new)>(s: seq<T>, t: seq<T>, less: (T, T) -> bool)
    requires (forall a :: !less(a, a)) && (forall a, b, c :: less(a, b) && less(b, c) ==> less(a, c))
    requires StrictlySorted(s, less) && StrictlySorted(t, less) && SameMembers(s, t)
    ensures s == t
  {
    assert s != [] ==> s[0] in s;
    assert t != [] ==> t[0] in t;
    if s != [] {
      StrictLast(s, t, less);
      StrictUnique(s[..|s| - 1], t[..|t| - 1], less);
      assert s == s[..|s| - 1] + [s[|s| - 1]] && t == t[..|t| - 1] + [t[|t| - 1]];
    }
  }

  // ----- Strings -----

  /** `std::string::operator<`. */
  predicate StringLess(s: string, t: string) {
    if t == [] then false
    else if s == [] then true
    else s[0] < t[0] || (s[0] == t[0] && StringLess(s[1..], t[1..]))
  }

  lemma {:induction false} StringLessTotal(s: string, t: string)
    ensures !(StringLess(s, t) && StringLess(t, s)) && !StringLess(s, s)
    ensures s != t ==> StringLess(s, t) || StringLess(t, s)
  {
    if s != [] { StringLessTotal(s[1..], if t == [] then [] else t[1..]); }
    if s != [] && t != [] && s[0] == t[0] && s[1..] == t[1..] {
      assert s == [s[0]] + s[1..] && t == [t[0]] + t[1..];
    }
  }

  lemma {:induction false} StringLessTransitive(s: string, t: string, u: string)
    requires StringLess(s, t) && StringLess(t, u)
    ensures StringLess(s, u)
  {
    if s != [] && s[0] == t[0] && t[0] == u[0] { StringLessTransitive(s[1..], t[1..], u[1..]); }
  }

  lemma StringOrder()
    ensures StrictTotal(StringLess)
  {
    forall s, t ensures (s != t ==> StringLess(s, t) || StringLess(t, s)) && !StringLess(s, s) {
      StringLessTotal(s, t);
    }
    forall s, t, u | StringLess(s, t) && StringLess(t, u) ensures StringLess(s, u) { StringLessTransitive(s, t, u); }
  }
}
