/** Managed application lists: the order of application instances, their merge keys, and the list operations
    of the managed-apps serializer. */
module ManageApps {
  import opened Decimal
  import opened Sorting

  /** Identity of an application is bundle name, account and index; the identifier only takes part in the order. */
  datatype App = App(appIdentifier: string, bundleName: string, accountId: int, appIndex: int)

  datatype Triple = Triple(bundleName: string, accountId: int, appIndex: int)

  function TripleOf(x: App): Triple {
    Triple(x.bundleName, x.accountId, x.appIndex)
  }

  /** `ApplicationInstance::operator<`. */
  predicate AppLess(x: App, y: App) {
    if x.appIdentifier != y.appIdentifier then StringLess(x.appIdentifier, y.appIdentifier)
    else if x.bundleName != y.bundleName then StringLess(x.bundleName, y.bundleName)
    else if x.accountId != y.accountId then x.accountId < y.accountId
    else x.appIndex < y.appIndex
  }

  lemma AppLessTotal(x: App, y: App)
    ensures !AppLess(x, x) && (x != y ==> AppLess(x, y) || AppLess(y, x))
  {
    StringLessTotal(x.appIdentifier, y.appIdentifier);
    StringLessTotal(x.bundleName, y.bundleName);
  }

  lemma AppLessTransitive(x: App, y: App, z: App)
    requires AppLess(x, y) && AppLess(y, z)
    ensures AppLess(x, z)
  {
    StringLessTotal(x.appIdentifier, y.appIdentifier);
    StringLessTotal(x.bundleName, y.bundleName);
    if x.appIdentifier != y.appIdentifier && y.appIdentifier != z.appIdentifier {
      StringLessTransitive(x.appIdentifier, y.appIdentifier, z.appIdentifier);
    }
    if x.bundleName != y.bundleName && y.bundleName != z.bundleName && StringLess(x.bundleName, y.bundleName)
       && StringLess(y.bundleName, z.bundleName) {
      StringLessTransitive(x.bundleName, y.bundleName, z.bundleName);
    }
  }

  lemma AppOrder()
    ensures StrictTotal(AppLess)
  {
    forall x, y ensures !AppLess(x, x) && (x != y ==> AppLess(x, y) || AppLess(y, x)) { AppLessTotal(x, y); }
    forall x, y, z | AppLess(x, y) && AppLess(y, z) ensures AppLess(x, z) { AppLessTransitive(x, y, z); }
  }

  // ----- Merge keys -----

  function MakeKey(x: App): string {
    x.bundleName + "_" + ToString(x.accountId) + "_" + ToString(x.appIndex)
  }

  /** The key `SetUnionPolicyData` builds: the same parts without separators. */
  function UnionKey(x: App): string {
    x.bundleName + ToString(x.accountId) + ToString(x.appIndex)
  }

  /** A text without `_` after the last `_` can be split off. */
  lemma LastPart(a: string, x: string, b: string, y: string)
    requires '_' !in x && '_' !in y && a + "_" + x == b + "_" + y
    ensures a == b && x == y
  {
    var s, t := a + "_" + x, b + "_" + y;
    assert s[|a|] == '_' && t[|b|] == '_';
    NotInTail(a, x, |b|);
    NotInTail(b, y, |a|);
    assert a == s[..|a|] && b == t[..|b|] && x == s[|a| + 1..] && y == t[|b| + 1..];
  }

  lemma NotInTail(a: string, x: string, k: nat)
    requires '_' !in x
    ensures |a| < k < |a| + 1 + |x| ==> (a + "_" + x)[k] != '_'
  {
    if |a| < k < |a| + 1 + |x| { assert (a + "_" + x)[k] == x[k - |a| - 1]; }
  }

  /** Keys tell triples apart, for every bundle name and all numbers. */
  lemma MakeKeyInjective(x: App, y: App)
    ensures MakeKey(x) == MakeKey(y) <==> TripleOf(x) == TripleOf(y)
  {
    ToStringBack(x.accountId);
    ToStringBack(y.accountId);
    ToStringBack(x.appIndex);
    ToStringBack(y.appIndex);
    if MakeKey(x) == MakeKey(y) {
      LastPart(x.bundleName + "_" + ToString(x.accountId), ToString(x.appIndex),
               y.bundleName + "_" + ToString(y.accountId), ToString(y.appIndex));
      LastPart(x.bundleName, ToString(x.accountId), y.bundleName, ToString(y.accountId));
    }
  }

  // ----- Merging the admins' lists -----

  function Flatten(data: seq<seq<App>>): seq<App> {
    if data == [] then [] else Flatten(data[..|data| - 1]) + data[|data| - 1]
  }

  /** The first item of each triple. */
  ghost predicate IsFirst(items: seq<App>, x: App) {
    exists i :: 0 <= i < |items| && items[i] == x && forall j :: 0 <= j < i ==> TripleOf(items[j]) != TripleOf(x)
  }

  ghost predicate HasKey(items: seq<App>, key: string) {
    exists i :: 0 <= i < |items| && MakeKey(items[i]) == key
  }

  ghost predicate Merged(items: seq<App>, mapData: map<string, App>, stData: set<App>) {
    && (forall k :: k in mapData <==> HasKey(items, k))
    && (forall x :: x in stData <==> IsFirst(items, x))
  }

  lemma KeyIsTriple(items: seq<App>, x: App)
    ensures HasKey(items, MakeKey(x)) <==> exists i :: 0 <= i < |items| && TripleOf(items[i]) == TripleOf(x)
  {
    forall i | 0 <= i < |items| ensures MakeKey(items[i]) == MakeKey(x) <==> TripleOf(items[i]) == TripleOf(x) {
      MakeKeyInjective(items[i], x);
    }
  }

  lemma KeyNext(items: seq<App>, x: App, k: string)
    ensures HasKey(items + [x], k) <==> HasKey(items, k) || k == MakeKey(x)
  {
    var all := items + [x];
    if HasKey(items, k) { var i :| 0 <= i < |items| && MakeKey(items[i]) == k; assert all[i] == items[i]; }
    if k == MakeKey(x) { assert all[|items|] == x; }
  }

  lemma FirstsNext(items: seq<App>, mapData: map<string, App>, x: App, y: App)
    requires forall k :: k in mapData <==> HasKey(items, k)
    ensures IsFirst(items + [x], y) <==> IsFirst(items, y) || (y == x && MakeKey(x) !in mapData)
  {
    KeyIsTriple(items, x);
    FirstNext(items, x, y);
  }

  lemma MergedWith(items: seq<App>, items': seq<App>, mapData: map<string, App>, stData: set<App>, x: App, key: string)
    requires Merged(items, mapData, stData)
    requires forall k :: HasKey(items', k) <==> HasKey(items, k) || k == key
    requires forall y :: IsFirst(items', y) <==> IsFirst(items, y) || (y == x && key !in mapData)
    ensures key in mapData ==> Merged(items', mapData, stData)
    ensures key !in mapData ==> Merged(items', mapData[key := x], stData + {x})
  {
  }

  lemma MergedNext(items: seq<App>, mapData: map<string, App>, stData: set<App>, x: App)
    requires Merged(items, mapData, stData)
    ensures MakeKey(x) in mapData ==> Merged(items + [x], mapData, stData)
    ensures MakeKey(x) !in mapData ==> Merged(items + [x], mapData[MakeKey(x) := x], stData + {x})
  {
    forall y ensures IsFirst(items + [x], y) <==> IsFirst(items, y) || (y == x && MakeKey(x) !in mapData) {
      FirstsNext(items, mapData, x, y);
    }
    forall k ensures HasKey(items + [x], k) <==> HasKey(items, k) || k == MakeKey(x) { KeyNext(items, x, k); }
    MergedWith(items, items + [x], mapData, stData, x, MakeKey(x));
  }

  lemma FirstNext(items: seq<App>, x: App, y: App)
    ensures IsFirst(items + [x], y) <==>
            IsFirst(items, y) || (y == x && forall i :: 0 <= i < |items| ==> TripleOf(items[i]) != TripleOf(x))
  {
    var all := items + [x];
    if IsFirst(all, y) {
      var i :| 0 <= i < |all| && all[i] == y && forall j :: 0 <= j < i ==> TripleOf(all[j]) != TripleOf(y);
      assert forall j :: 0 <= j < |items| ==> all[j] == items[j];
      if i < |items| { assert items[i] == y; }
    }
    if IsFirst(items, y) {
      var i :| 0 <= i < |items| && items[i] == y && forall j :: 0 <= j < i ==> TripleOf(items[j]) != TripleOf(y);
      assert all[i] == y;
    }
    if y == x && forall i :: 0 <= i < |items| ==> TripleOf(items[i]) != TripleOf(x) { assert all[|items|] == y; }
  }

  /** The result: the first occurrence of each distinct triple across all lists, in the order of AppLess. */
  method MergePolicy(data: seq<seq<App>>) returns (result: seq<App>)
    ensures StrictlySorted(result, AppLess)
    ensures forall x :: x in result <==> IsFirst(Flatten(data), x)
  {
    var stData: set<App> := {};
    var mapData: map<string, App> := map[];
    var n := 0;
    while n < |data|
      invariant 0 <= n <= |data|
      invariant Merged(Flatten(data[..n]), mapData, stData)
    {
      mapData, stData := MergeList(Flatten(data[..n]), data[n], mapData, stData);
      assert data[..n + 1][..n] == data[..n];
      n := n + 1;
    }
    assert data[..n] == data;
    AppOrder();
    result := InOrder(stData, AppLess);
  }

  /** The inner loop of `MergePolicy`. */
  method MergeList(ghost before: seq<App>, list: seq<App>, mapData0: map<string, App>, stData0: set<App>)
    returns (mapData: map<string, App>, stData: set<App>)
    requires Merged(before, mapData0, stData0)
    ensures Merged(before + list, mapData, stData)
  {
    mapData, stData := mapData0, stData0;
    assert before + [] == before;
    var i := 0;
    while i < |list|
      invariant 0 <= i <= |list|
      invariant Merged(before + list[..i], mapData, stData)
    {
      ghost var seen := before + list[..i];
      assert seen + [list[i]] == before + list[..i + 1];
      mapData, stData := MergeItem(seen, list[i], mapData, stData);
      i := i + 1;
    }
    assert before + list[..i] == before + list;
  }

  method MergeItem(ghost seen: seq<App>, item: App, mapData0: map<string, App>, stData0: set<App>)
    returns (mapData: map<string, App>, stData: set<App>)
    requires Merged(seen, mapData0, stData0)
    ensures Merged(seen + [item], mapData, stData)
  {
    mapData, stData := mapData0, stData0;
    MergedNext(seen, mapData, stData, item);
    var key := MakeKey(item);
    if key !in mapData {
      mapData := mapData[key := item];
      stData := stData + {item};
    }
  }

  /** No triple is lost and none is doubled. */
  lemma MergeCoversOnce(items: seq<App>, result: seq<App>, t: Triple)
    requires StrictlySorted(result, AppLess) && forall x :: x in result <==> IsFirst(items, x)
    ensures (exists i :: 0 <= i < |items| && TripleOf(items[i]) == t) <==>
            (exists k :: 0 <= k < |result| && TripleOf(result[k]) == t)
    ensures forall k, l :: 0 <= k < l < |result| ==> TripleOf(result[k]) != TripleOf(result[l])
  {
    if i :| 0 <= i < |items| && TripleOf(items[i]) == t {
      var j := FirstOf(items, t, i);
      assert IsFirst(items, items[j]) && items[j] in result;
    }
    if k :| 0 <= k < |result| && TripleOf(result[k]) == t { assert result[k] in result; }
    AppOrder();
    forall k, l | 0 <= k < l < |result| ensures TripleOf(result[k]) != TripleOf(result[l]) {
      assert result[k] in result && result[l] in result;
      FirstIsOne(items, result[k], result[l]);
    }
  }

  lemma {:induction false} FirstOf(items: seq<App>, t: Triple, i: nat) returns (j: nat)
    requires i < |items| && TripleOf(items[i]) == t
    ensures j <= i && TripleOf(items[j]) == t && forall k :: 0 <= k < j ==> TripleOf(items[k]) != t
  {
    j := i;
    if k :| 0 <= k < i && TripleOf(items[k]) == t { j := FirstOf(items, t, k); }
  }

  lemma FirstIsOne(items: seq<App>, x: App, y: App)
    requires IsFirst(items, x) && IsFirst(items, y)
    ensures TripleOf(x) == TripleOf(y) ==> x == y
  {
  }

  /** Equal triples are equal items. */
  ghost predicate OneIdentifierEach(items: seq<App>) {
    forall x, y :: x in items && y in items && TripleOf(x) == TripleOf(y) ==> x == y
  }

  /** The order of the lists does not matter while every application has one identifier. */
  lemma MergeIgnoresOrder(items: seq<App>, items': seq<App>, x: App)
    requires OneIdentifierEach(items) && forall y :: y in items <==> y in items'
    ensures IsFirst(items, x) <==> IsFirst(items', x)
    ensures IsFirst(items, x) <==> x in items
  {
    if i :| 0 <= i < |items| && items[i] == x { var j := FirstOf(items, TripleOf(x), i); assert items[j] in items; }
    if i :| 0 <= i < |items'| && items'[i] == x {
      var j := FirstOf(items', TripleOf(x), i);
      assert items'[j] in items' && items'[j] in items;
    }
  }

  predicate HasTriple(items: seq<App>, t: Triple) {
    exists i :: 0 <= i < |items| && TripleOf(items[i]) == t
  }

  lemma TripleAppend(a: seq<App>, b: seq<App>, t: Triple)
    ensures HasTriple(a + b, t) <==> HasTriple(a, t) || HasTriple(b, t)
  {
    var all := a + b;
    if HasTriple(a, t) { var i :| 0 <= i < |a| && TripleOf(a[i]) == t; assert all[i] == a[i]; }
    if HasTriple(b, t) { var i :| 0 <= i < |b| && TripleOf(b[i]) == t; assert all[|a| + i] == b[i]; }
  }

  lemma FirstAppend(a: seq<App>, b: seq<App>, x: App)
    ensures IsFirst(a + b, x) <==> IsFirst(a, x) || (IsFirst(b, x) && !HasTriple(a, TripleOf(x)))
  {
    if IsFirst(a + b, x) { FirstOfBoth(a, b, x); }
    if IsFirst(a, x) {
      var i :| 0 <= i < |a| && a[i] == x && forall j :: 0 <= j < i ==> TripleOf(a[j]) != TripleOf(x);
      assert (a + b)[i] == x;
    }
    if IsFirst(b, x) && !HasTriple(a, TripleOf(x)) { FirstOfSecond(a, b, x); }
  }

  lemma FirstOfBoth(a: seq<App>, b: seq<App>, x: App)
    requires IsFirst(a + b, x)
    ensures IsFirst(a, x) || (IsFirst(b, x) && !HasTriple(a, TripleOf(x)))
  {
    var all := a + b;
    var i :| 0 <= i < |all| && all[i] == x && forall j :: 0 <= j < i ==> TripleOf(all[j]) != TripleOf(x);
    assert forall j :: 0 <= j < |a| ==> all[j] == a[j];
    if i < |a| {
      assert a[i] == x;
    } else {
      var k := i - |a|;
      assert b[k] == x;
      forall j | 0 <= j < k ensures TripleOf(b[j]) != TripleOf(x) { assert all[|a| + j] == b[j]; }
    }
  }

  lemma FirstOfSecond(a: seq<App>, b: seq<App>, x: App)
    requires IsFirst(b, x) && !HasTriple(a, TripleOf(x))
    ensures IsFirst(a + b, x)
  {
    var all := a + b;
    var i :| 0 <= i < |b| && b[i] == x && forall j :: 0 <= j < i ==> TripleOf(b[j]) != TripleOf(x);
    assert all[|a| + i] == x;
    forall j | 0 <= j < |a| + i ensures TripleOf(all[j]) != TripleOf(x) {
      if j < |a| { assert all[j] == a[j]; } else { assert all[j] == b[j - |a|]; }
    }
  }

  /** The item is the first of its triple in list `k`, and no earlier list has the triple. */
  ghost predicate FirstHere(data: seq<seq<App>>, k: int, x: App) {
    0 <= k < |data| && IsFirst(data[k], x) && forall j :: 0 <= j < k ==> !HasTriple(data[j], TripleOf(x))
  }

  lemma {:induction false} FirstInLists(data: seq<seq<App>>, x: App)
    ensures IsFirst(Flatten(data), x) <==> exists k :: FirstHere(data, k, x)
    ensures HasTriple(Flatten(data), TripleOf(x)) <==> exists k :: 0 <= k < |data| && HasTriple(data[k], TripleOf(x))
  {
    if data != [] {
      var init, n := data[..|data| - 1], |data| - 1;
      FirstInLists(init, x);
      FirstAppend(Flatten(init), data[n], x);
      TripleAppend(Flatten(init), data[n], TripleOf(x));
      assert forall k :: 0 <= k < n ==> init[k] == data[k];
      assert forall k :: 0 <= k < n ==> (FirstHere(init, k, x) <==> FirstHere(data, k, x));
      if HasTriple(Flatten(init), TripleOf(x)) {
        var k :| 0 <= k < |init| && HasTriple(init[k], TripleOf(x));
        assert HasTriple(data[k], TripleOf(x));
      }
      assert FirstHere(data, n, x) <==> IsFirst(data[n], x) && !HasTriple(Flatten(init), TripleOf(x)) by {
        if !HasTriple(Flatten(init), TripleOf(x)) {
          forall j | 0 <= j < n ensures !HasTriple(data[j], TripleOf(x)) { assert init[j] == data[j]; }
        }
      }
    }
  }

  ghost predicate FirstIn(data: seq<seq<App>>, k: int, x: App) {
    0 <= k < |data| && IsFirst(data[k], x)
  }

  /** Two lists that hold a triple hold the same item first. */
  ghost predicate ListsAgree(data: seq<seq<App>>) {
    forall i, j, x, y :: FirstIn(data, i, x) && FirstIn(data, j, y) && TripleOf(x) == TripleOf(y) ==> x == y
  }

  /** Every order of the lists merges to the same items. */
  ghost predicate OrderHidden(data: seq<seq<App>>) {
    forall data' :: multiset(data') == multiset(data) ==> SameFirsts(data', data)
  }

  ghost predicate SameFirsts(data': seq<seq<App>>, data: seq<seq<App>>) {
    forall x :: IsFirst(Flatten(data'), x) <==> IsFirst(Flatten(data), x)
  }

  lemma AgreeingFirsts(data: seq<seq<App>>, x: App)
    requires ListsAgree(data)
    ensures IsFirst(Flatten(data), x) <==> exists k :: FirstIn(data, k, x)
  {
    FirstInLists(data, x);
    if k :| FirstHere(data, k, x) { assert FirstIn(data, k, x); }
    if k :| FirstIn(data, k, x) {
      var i :| 0 <= i < |data[k]| && data[k][i] == x;
      assert HasTriple(data[k], TripleOf(x));
      var m := EarliestList(data, TripleOf(x), k);
      var l :| 0 <= l < |data[m]| && TripleOf(data[m][l]) == TripleOf(x);
      var f := FirstOf(data[m], TripleOf(x), l);
      assert FirstIn(data, m, data[m][f]);
      assert data[m][f] == x;
      assert FirstHere(data, m, x);
    }
  }

  lemma {:induction false} EarliestList(data: seq<seq<App>>, t: Triple, k: nat) returns (m: nat)
    requires k < |data| && HasTriple(data[k], t)
    ensures m <= k && HasTriple(data[m], t) && forall j :: 0 <= j < m ==> !HasTriple(data[j], t)
  {
    m := k;
    if j :| 0 <= j < k && HasTriple(data[j], t) { m := EarliestList(data, t, j); }
  }

  lemma ToFront(data: seq<seq<App>>, k: nat, x: App)
    requires k < |data| && IsFirst(data[k], x)
    ensures var data' := [data[k]] + data[..k] + data[k + 1..];
            multiset(data') == multiset(data) && IsFirst(Flatten(data'), x)
  {
    var data' := [data[k]] + data[..k] + data[k + 1..];
    assert data == data[..k] + [data[k]] + data[k + 1..];
    FirstInLists(data', x);
    assert FirstHere(data', 0, x);
  }

  /** The order in which the administrators' lists are merged never shows exactly when any two lists that hold an
      application hold the same item of it first. */
  lemma MergeOrderShowsIff(data: seq<seq<App>>)
    ensures OrderHidden(data) <==> ListsAgree(data)
  {
    if ListsAgree(data) {
      forall data' | multiset(data') == multiset(data) ensures SameFirsts(data', data) { AgreeingOrders(data, data'); }
    }
    if OrderHidden(data) {
      forall i, j, x, y | FirstIn(data, i, x) && FirstIn(data, j, y) && TripleOf(x) == TripleOf(y)
        ensures x == y
      {
        ToFront(data, i, x);
        ToFront(data, j, y);
        assert SameFirsts([data[i]] + data[..i] + data[i + 1..], data);
        assert SameFirsts([data[j]] + data[..j] + data[j + 1..], data);
        FirstIsOne(Flatten(data), x, y);
      }
    }
  }

  lemma AgreeingOrders(data: seq<seq<App>>, data': seq<seq<App>>)
    requires ListsAgree(data) && multiset(data') == multiset(data)
    ensures SameFirsts(data', data)
  {
    forall list ensures list in data' <==> list in data { assert list in multiset(data') <==> list in multiset(data); }
    assert ListsAgree(data') by {
      forall i, j, x, y | FirstIn(data', i, x) && FirstIn(data', j, y) && TripleOf(x) == TripleOf(y)
        ensures x == y
      {
        assert data'[i] in data && data'[j] in data;
        var k :| 0 <= k < |data| && data[k] == data'[i];
        var l :| 0 <= l < |data| && data[l] == data'[j];
        assert FirstIn(data, k, x) && FirstIn(data, l, y);
      }
    }
    forall x ensures IsFirst(Flatten(data'), x) <==> IsFirst(Flatten(data), x) {
      AgreeingFirsts(data, x);
      AgreeingFirsts(data', x);
      if k :| FirstIn(data, k, x) {
        assert data[k] in data';
        var l :| 0 <= l < |data'| && data'[l] == data[k];
        assert FirstIn(data', l, x);
      }
      if k :| FirstIn(data', k, x) {
        assert data'[k] in data;
        var l :| 0 <= l < |data| && data[l] == data'[k];
        assert FirstIn(data, l, x);
      }
    }
  }

  // ----- Difference -----

  function SetDifference(a: seq<App>, b: seq<App>): seq<App>
    decreases |a| + |b|
  {
    if a == [] then []
    else if b == [] then a
    else if AppLess(a[0], b[0]) then [a[0]] + SetDifference(a[1..], b)
    else if AppLess(b[0], a[0]) then SetDifference(a, b[1..])
    else SetDifference(a[1..], b[1..])
  }

  ghost predicate SortedList(s: seq<App>) {
    Sorted(s, AppLess)
  }

  lemma MinusHeads<T>(m: multiset<T>, n: multiset<T>, x: T)
    ensures x !in n ==> multiset{x} + (m - n) == multiset{x} + m - n
    ensures x !in m ==> m - n == m - (multiset{x} + n)
    ensures m - n == multiset{x} + m - (multiset{x} + n)
  {
  }

  lemma {:induction false} SetDifferenceIs(a: seq<App>, b: seq<App>)
    requires SortedList(a) && SortedList(b)
    ensures SortedList(SetDifference(a, b)) && multiset(SetDifference(a, b)) == multiset(a) - multiset(b)
    decreases |a| + |b|
  {
    if a != [] && b != [] {
      HeadsSplit(a);
      HeadsSplit(b);
      if AppLess(a[0], b[0]) {
        SetDifferenceIs(a[1..], b);
        HeadBelow(a[0], b);
        PrependLeast(a, SetDifference(a[1..], b));
        MinusHeads(multiset(a[1..]), multiset(b), a[0]);
      } else if AppLess(b[0], a[0]) {
        SetDifferenceIs(a, b[1..]);
        HeadBelow(b[0], a);
        MinusHeads(multiset(a), multiset(b[1..]), b[0]);
      } else {
        AppOrder();
        SetDifferenceIs(a[1..], b[1..]);
        MinusHeads(multiset(a[1..]), multiset(b[1..]), a[0]);
      }
    }
  }

  lemma HeadsSplit(a: seq<App>)
    requires SortedList(a) && a != []
    ensures SortedList(a[1..]) && multiset(a) == multiset{a[0]} + multiset(a[1..])
  {
    assert a == [a[0]] + a[1..];
  }

  lemma PrependLeast(a: seq<App>, rest: seq<App>)
    requires SortedList(a) && a != [] && SortedList(rest) && multiset(rest) <= multiset(a[1..])
    ensures SortedList([a[0]] + rest)
  {
    forall i | 0 <= i < |rest| ensures !AppLess(rest[i], a[0]) {
      assert rest[i] in multiset(rest) && rest[i] in multiset(a[1..]);
    }
  }

  lemma HeadBelow(x: App, s: seq<App>)
    requires SortedList(s) && s != [] && AppLess(x, s[0])
    ensures x !in multiset(s)
  {
    AppOrder();
  }

  /** Both arguments are sorted in place; the result is what `currentData` has more of than `data`. */
  method SetDifferencePolicyData(data: array<App>, currentData: array<App>) returns (mergeData: seq<App>)
    requires data != currentData
    modifies data, currentData
    ensures data[..] == Sort(old(data[..]), AppLess) && currentData[..] == Sort(old(currentData[..]), AppLess)
    ensures SortedList(mergeData)
    ensures multiset(mergeData) == multiset(old(currentData[..])) - multiset(old(data[..]))
  {
    AppOrder();
    ghost var d, c := data[..], currentData[..];
    SortInPlace(data);
    SortInPlace(currentData);
    SortIs(d, AppLess);
    SortIs(c, AppLess);
    mergeData := Difference(currentData, data);
    SetDifferenceIs(currentData[..], data[..]);
  }

  lemma DifferenceStep(a: seq<App>, b: seq<App>, i: nat, j: nat)
    requires i < |a| && j < |b|
    ensures SetDifference(a[i..], b[j..]) ==
            if AppLess(a[i], b[j]) then [a[i]] + SetDifference(a[i + 1..], b[j..])
            else if AppLess(b[j], a[i]) then SetDifference(a[i..], b[j + 1..])
            else SetDifference(a[i + 1..], b[j + 1..])
  {
    assert a[i..][0] == a[i] && a[i..][1..] == a[i + 1..];
    assert b[j..][0] == b[j] && b[j..][1..] == b[j + 1..];
  }

  /** `std::set_difference`. */
  method Difference(a: array<App>, b: array<App>) returns (result: seq<App>)
    ensures result == SetDifference(a[..], b[..])
  {
    result := [];
    var i, j := 0, 0;
    while i < a.Length && j < b.Length
      invariant 0 <= i <= a.Length && 0 <= j <= b.Length
      invariant result + SetDifference(a[..][i..], b[..][j..]) == SetDifference(a[..], b[..])
      decreases a.Length - i + b.Length - j
    {
      DifferenceStep(a[..], b[..], i, j);
      if AppLess(a[i], b[j]) {
        result := result + [a[i]];
        i := i + 1;
      } else if AppLess(b[j], a[i]) {
        j := j + 1;
      } else {
        i, j := i + 1, j + 1;
      }
    }
    assert a[..][i..] == a[i..];
    result := result + a[i..];
  }

  /** `std::sort`. */
  method SortInPlace(a: array<App>)
    modifies a
    ensures a[..] == Sort(old(a[..]), AppLess)
  {
    AppOrder();
    ghost var was := a[..];
    SortIs(was, AppLess);
    assert |multiset(was)| == |was| && |multiset(Sort(was, AppLess))| == |Sort(was, AppLess)|;
    var sorted := Sort(a[..], AppLess);
    var i := 0;
    while i < a.Length
      invariant 0 <= i <= a.Length
      invariant a[..i] == sorted[..i]
    {
      a[i] := sorted[i];
      i := i + 1;
    }
    assert a[..] == a[..i] && sorted == sorted[..i];
  }

  // ----- What stays and what goes -----

  /** The index of the first item of the triple, or the length. */
  function FindTriple(items: seq<App>, t: Triple): (k: nat)
    ensures k <= |items| && (k < |items| <==> HasTriple(items, t))
    ensures k < |items| ==> TripleOf(items[k]) == t && forall j :: 0 <= j < k ==> TripleOf(items[j]) != t
  {
    if items == [] then 0
    else
      var k := FindTriple(items[..|items| - 1], t);
      if k < |items| - 1 || TripleOf(items[k]) == t then k else |items|
  }

  function NeedRemove(mergeData: seq<App>, data: seq<App>): seq<App> {
    if data == [] then []
    else
      var init, last := NeedRemove(mergeData, data[..|data| - 1]), data[|data| - 1];
      if HasTriple(mergeData, TripleOf(last)) then init else init + [last]
  }

  function Intersection(data: seq<App>, currentData: seq<App>): seq<App> {
    if data == [] then []
    else
      var init := Intersection(data[..|data| - 1], currentData);
      var k := FindTriple(currentData, TripleOf(data[|data| - 1]));
      if k < |currentData| then init + [currentData[k]] else init
  }

  method SetNeedRemoveMergePolicyData(mergeData: seq<App>, data: seq<App>) returns (removeData: seq<App>)
    ensures removeData == NeedRemove(mergeData, data)
  {
    removeData := [];
    var i := 0;
    while i < |data|
      invariant 0 <= i <= |data| && removeData == NeedRemove(mergeData, data[..i])
    {
      assert data[..i + 1][..i] == data[..i];
      if FindTriple(mergeData, TripleOf(data[i])) == |mergeData| { removeData := removeData + [data[i]]; }
      i := i + 1;
    }
    assert data[..i] == data;
  }

  method SetIntersectionPolicyData(data: seq<App>, currentData: seq<App>) returns (mergeData: seq<App>)
    ensures mergeData == Intersection(data, currentData)
  {
    mergeData := [];
    var i := 0;
    while i < |data|
      invariant 0 <= i <= |data| && mergeData == Intersection(data[..i], currentData)
    {
      assert data[..i + 1][..i] == data[..i];
      var j := 0;
      while j < |currentData| && TripleOf(currentData[j]) != TripleOf(data[i])
        invariant 0 <= j <= |currentData| && forall k :: 0 <= k < j ==> TripleOf(currentData[k]) != TripleOf(data[i])
      {
        j := j + 1;
      }
      if j < |currentData| { mergeData := mergeData + [currentData[j]]; }
      assert j == FindTriple(currentData, TripleOf(data[i]));
      i := i + 1;
    }
    assert data[..i] == data;
  }

  function Triples(items: seq<App>): multiset<Triple> {
    if items == [] then multiset{} else Triples(items[..|items| - 1]) + multiset{TripleOf(items[|items| - 1])}
  }

  lemma TriplesAppend(items: seq<App>, x: App)
    ensures Triples(items + [x]) == Triples(items) + multiset{TripleOf(x)}
  {
    assert (items + [x])[..|items|] == items;
  }

  /** Every item of `data` is accounted for once: its triple goes to the list of those to remove when the merge
      lost it, and otherwise to the list of those that stay. */
  lemma {:induction false} RemovedAndKept(mergeData: seq<App>, data: seq<App>)
    ensures |NeedRemove(mergeData, data)| + |Intersection(data, mergeData)| == |data|
    ensures Triples(NeedRemove(mergeData, data)) + Triples(Intersection(data, mergeData)) == Triples(data)
  {
    if data != [] {
      var init, last := data[..|data| - 1], data[|data| - 1];
      RemovedAndKept(mergeData, init);
      var k := FindTriple(mergeData, TripleOf(last));
      if k < |mergeData| {
        TriplesAppend(Intersection(init, mergeData), mergeData[k]);
      } else {
        TriplesAppend(NeedRemove(mergeData, init), last);
      }
    }
  }

  /** What is removed is not in the merge; what is kept is the merge's own item. */
  lemma {:induction false} RemovedIsLost(mergeData: seq<App>, data: seq<App>, x: App)
    ensures x in NeedRemove(mergeData, data) <==> x in data && !HasTriple(mergeData, TripleOf(x))
    ensures x in Intersection(data, mergeData) ==> x in mergeData && HasTriple(data, TripleOf(x))
  {
    if data != [] {
      var init, last := data[..|data| - 1], data[|data| - 1];
      RemovedIsLost(mergeData, init, x);
      assert data == init + [last];
      if HasTriple(init, TripleOf(x)) {
        var i :| 0 <= i < |init| && TripleOf(init[i]) == TripleOf(x);
        assert data[i] == init[i];
      }
    }
  }

  // ----- Union -----

  /** The map from keys to items, the last item of a key winning. */
  function UnionMap(items: seq<App>, key: App -> string): map<string, App> {
    if items == [] then map[] else UnionMap(items[..|items| - 1], key)[key(items[|items| - 1]) := items[|items| - 1]]
  }

  /** The last item of the key. */
  ghost predicate LastOfKey(items: seq<App>, key: App -> string, i: nat) {
    i < |items| && forall j :: i < j < |items| ==> key(items[j]) != key(items[i])
  }

  /** So of two items with one key the later one stays, and no key is lost. */
  lemma {:induction false} UnionKeepsLast(items: seq<App>, key: App -> string, i: nat)
    requires i < |items|
    ensures key(items[i]) in UnionMap(items, key)
    ensures LastOfKey(items, key, i) ==> UnionMap(items, key)[key(items[i])] == items[i]
  {
    var n := |items| - 1;
    if i < n {
      UnionKeepsLast(items[..n], key, i);
      assert items[..n][i] == items[i];
      if LastOfKey(items, key, i) {
        assert key(items[n]) != key(items[i]);
        assert LastOfKey(items[..n], key, i);
      }
    }
  }

  /** The items of a map in the order of its keys. */
  ghost predicate ListsMap(m: map<string, App>, keys: seq<string>, result: seq<App>) {
    && StrictlySorted(keys, StringLess) && |keys| == |result| && (forall k :: k in keys <==> k in m)
    && (forall i :: 0 <= i < |keys| ==> keys[i] in m && result[i] == m[keys[i]])
  }

  ghost predicate IsUnion(items: seq<App>, result: seq<App>) {
    exists keys :: ListsMap(UnionMap(items, UnionKey), keys, result)
  }

  method SetUnionPolicyData(data: seq<App>, currentData: seq<App>) returns (mergeData: seq<App>)
    ensures IsUnion(data + currentData, mergeData)
  {
    var mergeMap := FillUnionMap(data + currentData, UnionKey);
    ghost var keys;
    keys, mergeData := ListMap(mergeMap);
  }

  method ListMap(m: map<string, App>) returns (keys: seq<string>, result: seq<App>)
    ensures ListsMap(m, keys, result)
  {
    StringOrder();
    keys := InOrder(m.Keys, StringLess);
    assert forall i :: 0 <= i < |keys| ==> keys[i] in keys;
    result := ListValues(m, keys);
  }

  /** The loop over the ordered map. */
  method ListValues(m: map<string, App>, keys: seq<string>) returns (result: seq<App>)
    requires forall i :: 0 <= i < |keys| ==> keys[i] in m
    ensures |result| == |keys| && forall i :: 0 <= i < |keys| ==> result[i] == m[keys[i]]
  {
    result := [];
    var i := 0;
    while i < |keys|
      invariant 0 <= i <= |keys| && |result| == i
      invariant forall j :: 0 <= j < i ==> result[j] == m[keys[j]]
    {
      result := result + [m[keys[i]]];
      i := i + 1;
    }
  }

  method FillUnionMap(items: seq<App>, key: App -> string) returns (mergeMap: map<string, App>)
    ensures mergeMap == UnionMap(items, key)
  {
    mergeMap := map[];
    var i := 0;
    while i < |items|
      invariant 0 <= i <= |items| && mergeMap == UnionMap(items[..i], key)
    {
      assert items[..i + 1][..i] == items[..i];
      mergeMap := mergeMap[key(items[i]) := items[i]];
      i := i + 1;
    }
    assert items[..i] == items;
  }

  /** No two items of different triples share a key. */
  ghost predicate KeysApart(items: seq<App>, key: App -> string) {
    forall i, j :: 0 <= i < |items| && 0 <= j < |items| && key(items[i]) == key(items[j]) ==>
      TripleOf(items[i]) == TripleOf(items[j])
  }

  lemma {:induction false} UnionMapIs(items: seq<App>, key: App -> string, k: string)
    ensures k in UnionMap(items, key) ==> UnionMap(items, key)[k] in items && key(UnionMap(items, key)[k]) == k
  {
    if items != [] {
      var init, last := items[..|items| - 1], items[|items| - 1];
      UnionMapIs(init, key, k);
      assert items == init + [last];
    }
  }

  lemma {:induction false} UnionMapHas(items: seq<App>, key: App -> string, i: nat)
    requires i < |items|
    ensures key(items[i]) in UnionMap(items, key)
  {
    if i < |items| - 1 { UnionMapHas(items[..|items| - 1], key, i); }
  }

  /** The listing keeps every application exactly when the keys tell the applications apart. */
  lemma ListingKeepsAllIff(items: seq<App>, key: App -> string, keys: seq<string>, result: seq<App>)
    requires ListsMap(UnionMap(items, key), keys, result)
    requires forall x, y :: TripleOf(x) == TripleOf(y) ==> key(x) == key(y)
    ensures (forall i :: 0 <= i < |items| ==> HasTriple(result, TripleOf(items[i]))) <==> KeysApart(items, key)
  {
    if KeysApart(items, key) {
      forall i | 0 <= i < |items| ensures HasTriple(result, TripleOf(items[i])) {
        UnionHoldsKey(items, key, keys, result, i);
      }
    }
    if forall i :: 0 <= i < |items| ==> HasTriple(result, TripleOf(items[i])) {
      forall i, j | 0 <= i < |items| && 0 <= j < |items| && key(items[i]) == key(items[j])
        ensures TripleOf(items[i]) == TripleOf(items[j])
      {
        UnionTripleOwnsKey(items, key, keys, result, i);
        UnionTripleOwnsKey(items, key, keys, result, j);
      }
    }
  }

  lemma UnionHoldsKey(items: seq<App>, key: App -> string, keys: seq<string>, result: seq<App>, i: nat)
    requires ListsMap(UnionMap(items, key), keys, result) && KeysApart(items, key) && i < |items|
    ensures HasTriple(result, TripleOf(items[i]))
  {
    UnionMapHas(items, key, i);
    UnionMapIs(items, key, key(items[i]));
    assert key(items[i]) in keys;
    var n :| 0 <= n < |keys| && keys[n] == key(items[i]);
    var j :| 0 <= j < |items| && items[j] == result[n];
    assert key(items[j]) == key(items[i]);
    assert TripleOf(result[n]) == TripleOf(items[i]);
  }

  lemma UnionTripleOwnsKey(items: seq<App>, key: App -> string, keys: seq<string>, result: seq<App>, i: nat)
    requires ListsMap(UnionMap(items, key), keys, result) && i < |items| && HasTriple(result, TripleOf(items[i]))
    requires forall x, y :: TripleOf(x) == TripleOf(y) ==> key(x) == key(y)
    ensures var m := UnionMap(items, key); key(items[i]) in m && TripleOf(m[key(items[i])]) == TripleOf(items[i])
  {
    var n :| 0 <= n < |result| && TripleOf(result[n]) == TripleOf(items[i]);
    UnionMapIs(items, key, keys[n]);
    assert key(result[n]) == key(items[i]);
  }

  /** The union keeps every application exactly when the keys tell the applications apart. */
  lemma UnionKeepsAllIff(items: seq<App>, result: seq<App>)
    requires IsUnion(items, result)
    ensures (forall i :: 0 <= i < |items| ==> HasTriple(result, TripleOf(items[i]))) <==> KeysApart(items, UnionKey)
  {
    var keys :| ListsMap(UnionMap(items, UnionKey), keys, result);
    ListingKeepsAllIff(items, UnionKey, keys, result);
  }

  /** Two applications the union takes for one, because their keys have no separators. */
  lemma UnionKeysCollide()
    ensures var x, y := App("", "a", 1, 11), App("", "a", 11, 1);
            TripleOf(x) != TripleOf(y) && UnionKey(x) == UnionKey(y) && !KeysApart([x, y], UnionKey)
  {
    var x, y := App("", "a", 1, 11), App("", "a", 11, 1);
    assert Digits(1) == "1" && Digits(11) == Digits(1) + "1";
    assert UnionKey(x) == "a" + "1" + "11" && UnionKey(y) == "a" + "11" + "1";
    assert UnionKey(x) == "a111" && UnionKey(y) == "a111";
    assert [x, y][0] == x && [x, y][1] == y;
  }
}
