/** The merge of the admins' notification lists: for each user the union of the trust lists. */
module NotificationMerge {
  import opened Sorting

  datatype Entry = Entry(userId: int, trustList: set<string>)

  predicate IntLess(a: int, b: int) {
    a < b
  }

  predicate EarlierUser(a: Entry, b: Entry) {
    a.userId < b.userId
  }

  function Flatten(data: seq<seq<Entry>>): seq<Entry> {
    if data == [] then [] else Flatten(data[..|data| - 1]) + data[|data| - 1]
  }

  /** Some admin trusts the bundle for the user. */
  ghost predicate Trusts(items: seq<Entry>, user: int, bundle: string) {
    exists i :: 0 <= i < |items| && items[i].userId == user && bundle in items[i].trustList
  }

  ghost predicate Names(items: seq<Entry>, user: int) {
    exists i :: 0 <= i < |items| && items[i].userId == user
  }

  ghost predicate ByUser(a: seq<Entry>) {
    forall i, j :: 0 <= i < j < |a| ==> a[i].userId < a[j].userId
  }

  /** `result` has one entry for each user named, in the order of the users, with all that any admin trusts. */
  ghost predicate IsMerge(items: seq<Entry>, result: seq<Entry>) {
    && ByUser(result)
    && (forall u :: Names(result, u) <==> Names(items, u))
    && (forall u, b :: Trusts(result, u, b) <==> Trusts(items, u, b))
  }

  ghost predicate Collected(items: seq<Entry>, merged: map<int, set<string>>) {
    && (forall u :: u in merged <==> Names(items, u))
    && (forall u, b :: u in merged ==> (b in merged[u] <==> Trusts(items, u, b)))
  }

  lemma NextEntry(items: seq<Entry>, e: Entry, u: int, b: string)
    ensures Names(items + [e], u) <==> Names(items, u) || e.userId == u
    ensures Trusts(items + [e], u, b) <==> Trusts(items, u, b) || (e.userId == u && b in e.trustList)
  {
    var all := items + [e];
    assert all[|items|] == e && forall i :: 0 <= i < |items| ==> all[i] == items[i];
    if Names(items, u) { var i :| 0 <= i < |items| && items[i].userId == u; assert all[i].userId == u; }
    if Trusts(items, u, b) {
      var i :| 0 <= i < |items| && items[i].userId == u && b in items[i].trustList;
      assert all[i].userId == u;
    }
  }

  function Trusted(merged: map<int, set<string>>, u: int): set<string> {
    if u in merged then merged[u] else {}
  }

  lemma CollectNext(items: seq<Entry>, merged: map<int, set<string>>, e: Entry)
    requires Collected(items, merged)
    ensures Collected(items + [e], merged[e.userId := Trusted(merged, e.userId) + e.trustList])
  {
    var merged' := merged[e.userId := Trusted(merged, e.userId) + e.trustList];
    forall u ensures u in merged' <==> Names(items + [e], u) { NextEntry(items, e, u, ""); }
    forall u, b | u in merged' ensures b in merged'[u] <==> Trusts(items + [e], u, b) {
      NextEntry(items, e, u, b);
      if Trusts(items, u, b) { assert Names(items, u); }
    }
  }

  /** An empty input leaves the result as it was; it is not cleared. */
  method MergePolicy(data: seq<seq<Entry>>, result0: seq<Entry>) returns (result: seq<Entry>)
    ensures data == [] ==> result == result0
    ensures data != [] ==> IsMerge(Flatten(data), result)
  {
    result := result0;
    if data != [] {
      var merged: map<int, set<string>> := map[];
      var n := 0;
      while n < |data|
        invariant 0 <= n <= |data| && Collected(Flatten(data[..n]), merged)
      {
        merged := CollectList(Flatten(data[..n]), data[n], merged);
        assert data[..n + 1][..n] == data[..n];
        n := n + 1;
      }
      assert data[..n] == data;
      result := Entries(merged);
      EntriesAreMerge(Flatten(data), merged, result);
    }
  }

  method CollectList(ghost before: seq<Entry>, list: seq<Entry>, merged0: map<int, set<string>>)
    returns (merged: map<int, set<string>>)
    requires Collected(before, merged0)
    ensures Collected(before + list, merged)
  {
    merged := merged0;
    assert before + [] == before;
    var i := 0;
    while i < |list|
      invariant 0 <= i <= |list| && Collected(before + list[..i], merged)
    {
      CollectNext(before + list[..i], merged, list[i]);
      assert before + list[..i] + [list[i]] == before + list[..i + 1];
      merged := merged[list[i].userId := Trusted(merged, list[i].userId) + list[i].trustList];
      i := i + 1;
    }
    assert before + list[..i] == before + list;
  }

  /** The entries of an ordered map. */
  method Entries(merged: map<int, set<string>>) returns (result: seq<Entry>)
    ensures ByUser(result)
    ensures forall i :: 0 <= i < |result| ==>
              result[i].userId in merged && result[i].trustList == merged[result[i].userId]
    ensures forall u :: u in merged ==> exists i :: 0 <= i < |result| && result[i].userId == u
  {
    var users := InOrder(merged.Keys, IntLess);
    assert forall i :: 0 <= i < |users| ==> users[i] in users;
    result := [];
    var i := 0;
    while i < |users|
      invariant 0 <= i <= |users| && |result| == i
      invariant forall j :: 0 <= j < i ==> result[j] == Entry(users[j], merged[users[j]])
    {
      result := result + [Entry(users[i], merged[users[i]])];
      i := i + 1;
    }
    assert forall j, k :: 0 <= j < k < |users| ==> IntLess(users[j], users[k]);
    forall u | u in merged ensures exists j :: 0 <= j < |result| && result[j].userId == u {
      assert u in users;
      var j :| 0 <= j < |users| && users[j] == u;
      assert result[j].userId == u;
    }
  }

  lemma EntriesAreMerge(items: seq<Entry>, merged: map<int, set<string>>, result: seq<Entry>)
    requires Collected(items, merged) && ByUser(result)
    requires forall i :: 0 <= i < |result| ==>
               result[i].userId in merged && result[i].trustList == merged[result[i].userId]
    requires forall u :: u in merged ==> exists i :: 0 <= i < |result| && result[i].userId == u
    ensures IsMerge(items, result)
  {
    forall u, b ensures Trusts(result, u, b) <==> Trusts(items, u, b) {
      if Trusts(items, u, b) {
        assert Names(items, u) && u in merged;
        var i :| 0 <= i < |result| && result[i].userId == u;
        assert b in result[i].trustList;
      }
    }
  }

  // ----- The merge is determined, ignores order, and can be done in parts -----

  lemma EntryIs(r: seq<Entry>, s: seq<Entry>, i: nat)
    requires ByUser(r) && ByUser(s) && i < |r|
    requires (forall u :: Names(r, u) <==> Names(s, u)) && (forall u, b :: Trusts(r, u, b) <==> Trusts(s, u, b))
    ensures r[i] in s
  {
    var u := r[i].userId;
    assert Names(r, u);
    var j :| 0 <= j < |s| && s[j].userId == u;
    forall b ensures b in r[i].trustList <==> b in s[j].trustList {
      assert Trusts(r, u, b) <==> Trusts(s, u, b);
      if b in r[i].trustList {
        assert Trusts(r, u, b);
        var k :| 0 <= k < |s| && s[k].userId == u && b in s[k].trustList;
        assert k == j;
      }
      if b in s[j].trustList {
        assert Trusts(s, u, b);
        var k :| 0 <= k < |r| && r[k].userId == u && b in r[k].trustList;
        assert k == i;
      }
    }
    assert s[j] == r[i];
  }

  /** What is trusted for whom determines the whole result. */
  lemma MergeUnique(r: seq<Entry>, s: seq<Entry>)
    requires ByUser(r) && ByUser(s)
    requires (forall u :: Names(r, u) <==> Names(s, u)) && (forall u, b :: Trusts(r, u, b) <==> Trusts(s, u, b))
    ensures r == s
  {
    forall e ensures e in r <==> e in s {
      if e in r { var i :| 0 <= i < |r| && r[i] == e; EntryIs(r, s, i); }
      if e in s { var i :| 0 <= i < |s| && s[i] == e; EntryIs(s, r, i); }
    }
    StrictUnique(r, s, EarlierUser);
  }

  /** The order of the admins and of their entries does not matter. */
  lemma MergeIgnoresOrder(items: seq<Entry>, items': seq<Entry>, result: seq<Entry>, result': seq<Entry>)
    requires (forall e :: e in items <==> e in items') && IsMerge(items, result) && IsMerge(items', result')
    ensures result == result'
  {
    forall u ensures Names(items, u) <==> Names(items', u) {
      if Names(items, u) { var i :| 0 <= i < |items| && items[i].userId == u; assert items[i] in items'; }
      if Names(items', u) { var i :| 0 <= i < |items'| && items'[i].userId == u; assert items'[i] in items; }
    }
    forall u, b ensures Trusts(items, u, b) <==> Trusts(items', u, b) {
      if Trusts(items, u, b) {
        var i :| 0 <= i < |items| && items[i].userId == u && b in items[i].trustList;
        assert items[i] in items';
      }
      if Trusts(items', u, b) {
        var i :| 0 <= i < |items'| && items'[i].userId == u && b in items'[i].trustList;
        assert items'[i] in items;
      }
    }
    MergeUnique(result, result');
  }

  lemma Appended(a: seq<Entry>, b: seq<Entry>, u: int, x: string)
    ensures Names(a + b, u) <==> Names(a, u) || Names(b, u)
    ensures Trusts(a + b, u, x) <==> Trusts(a, u, x) || Trusts(b, u, x)
  {
    var all := a + b;
    assert forall i :: 0 <= i < |a| ==> all[i] == a[i];
    assert forall i :: 0 <= i < |b| ==> all[|a| + i] == b[i];
    if Names(a, u) { var i :| 0 <= i < |a| && a[i].userId == u; assert all[i].userId == u; }
    if Names(b, u) { var i :| 0 <= i < |b| && b[i].userId == u; assert all[|a| + i].userId == u; }
    if Trusts(a, u, x) { var i :| 0 <= i < |a| && a[i].userId == u && x in a[i].trustList; assert all[i].userId == u; }
    if Trusts(b, u, x) {
      var i :| 0 <= i < |b| && b[i].userId == u && x in b[i].trustList;
      assert all[|a| + i].userId == u;
    }
    if Names(all, u) {
      var i :| 0 <= i < |all| && all[i].userId == u;
      if i >= |a| { assert b[i - |a|] == all[i]; }
    }
    if Trusts(all, u, x) {
      var i :| 0 <= i < |all| && all[i].userId == u && x in all[i].trustList;
      if i >= |a| { assert b[i - |a|] == all[i]; }
    }
  }

  /** Merging the others first and the admin's own list afterwards is merging all the lists. */
  lemma MergeInParts(others: seq<Entry>, own: seq<Entry>, part: seq<Entry>, twice: seq<Entry>, once: seq<Entry>)
    requires IsMerge(others, part) && IsMerge(part + own, twice) && IsMerge(others + own, once)
    ensures twice == once
  {
    forall u, x
      ensures Names(part + own, u) <==> Names(others + own, u)
      ensures Trusts(part + own, u, x) <==> Trusts(others + own, u, x)
    {
      Appended(part, own, u, x);
      Appended(others, own, u, x);
    }
    forall u ensures Names(part + own, u) <==> Names(others + own, u) {
      Appended(part, own, u, "");
      Appended(others, own, u, "");
    }
    MergeUnique(twice, once);
  }
}
