/** The allowed-notification plugin: its merge as the merge of a plugin, and what its set handler makes of it. */
module NotificationPlugin {
  import opened PolicyModel
  import opened StoreLaws
  import opened ManagerModel
  import opened PipelineModel
  import opened NotificationMerge

  // ----- The merge as a function -----

  /** One entry into a merged list: the user's bundles are joined, a new user takes its place in the order. */
  function MergeAdd(merged: seq<Entry>, e: Entry): seq<Entry> {
    if merged == [] || e.userId < merged[0].userId then [e] + merged
    else if e.userId == merged[0].userId then [Entry(e.userId, merged[0].trustList + e.trustList)] + merged[1..]
    else [merged[0]] + MergeAdd(merged[1..], e)
  }

  function MergeOf(items: seq<Entry>): seq<Entry> {
    if items == [] then [] else MergeAdd(MergeOf(items[..|items| - 1]), items[|items| - 1])
  }

  ghost predicate AllFrom(items: seq<Entry>, user: int) {
    forall i :: 0 <= i < |items| ==> user <= items[i].userId
  }

  lemma ConsIs(e: Entry, rest: seq<Entry>, u: int, b: string)
    ensures Names([e] + rest, u) <==> e.userId == u || Names(rest, u)
    ensures Trusts([e] + rest, u, b) <==> (e.userId == u && b in e.trustList) || Trusts(rest, u, b)
  {
    Appended([e], rest, u, b);
    assert [e][0] == e;
    assert Names([e], u) <==> e.userId == u;
    assert Trusts([e], u, b) <==> e.userId == u && b in e.trustList;
  }

  lemma {:induction false} MergeAddIs(merged: seq<Entry>, e: Entry, u: int, b: string)
    requires ByUser(merged)
    ensures Names(MergeAdd(merged, e), u) <==> Names(merged, u) || e.userId == u
    ensures Trusts(MergeAdd(merged, e), u, b) <==> Trusts(merged, u, b) || (e.userId == u && b in e.trustList)
  {
    ConsIs(e, merged, u, b);
    if merged != [] {
      var first, rest := merged[0], merged[1..];
      assert merged == [first] + rest;
      ConsIs(first, rest, u, b);
      if e.userId == first.userId {
        ConsIs(Entry(e.userId, first.trustList + e.trustList), rest, u, b);
      } else if first.userId < e.userId {
        MergeAddIs(rest, e, u, b);
        ConsIs(first, MergeAdd(rest, e), u, b);
      }
    }
  }

  lemma {:induction false} MergeAddOrdered(merged: seq<Entry>, e: Entry, low: int)
    requires ByUser(merged) && AllFrom(merged, low) && low <= e.userId
    ensures ByUser(MergeAdd(merged, e)) && AllFrom(MergeAdd(merged, e), low)
  {
    if merged != [] && merged[0].userId < e.userId {
      MergeAddOrdered(merged[1..], e, merged[0].userId + 1);
    }
  }

  ghost function Lowest(items: seq<Entry>, user: int): int {
    if items == [] || user < items[0].userId then user else items[0].userId
  }

  /** The function computes the merge of the serializer. */
  lemma {:induction false} MergeOfIs(items: seq<Entry>)
    ensures IsMerge(items, MergeOf(items))
  {
    if items != [] {
      var init, e := items[..|items| - 1], items[|items| - 1];
      MergeOfIs(init);
      var merged := MergeOf(init);
      assert items == init + [e];
      MergeAddOrdered(merged, e, Lowest(merged, e.userId));
      forall u, b
        ensures Names(MergeOf(items), u) <==> Names(items, u)
        ensures Trusts(MergeOf(items), u, b) <==> Trusts(items, u, b)
      {
        MergeAddIs(merged, e, u, b);
        NextEntry(init, e, u, b);
      }
      forall u ensures Names(MergeOf(items), u) <==> Names(items, u) {
        MergeAddIs(merged, e, u, "");
        NextEntry(init, e, u, "");
      }
    }
  }

  // ----- Values as texts -----

  /** The serializer, and the request it reads from a call. */
  datatype Codec = Codec(encode: seq<Entry> -> string, decode: string -> seq<Entry>, request: Parcel -> Entry)

  /** Lists are written and read back, and the empty list is the empty text. */
  ghost predicate Faithful(codec: Codec) {
    && codec.encode([]) == "" && codec.decode("") == []
    && forall list :: codec.decode(codec.encode(list)) == list
  }

  ghost function TextsOf(values: multiset<string>): seq<string>
    decreases |values|
  {
    if values == multiset{} then []
    else
      var v :| v in values;
      TextsOf(values - multiset{v}) + [v]
  }

  function EntriesOf(codec: Codec, texts: seq<string>): seq<Entry> {
    if texts == [] then [] else EntriesOf(codec, texts[..|texts| - 1]) + codec.decode(texts[|texts| - 1])
  }

  /** `GetOthersMergePolicyData` with this serializer. */
  ghost function MergedText(codec: Codec, values: multiset<string>): string {
    codec.encode(MergeOf(EntriesOf(codec, TextsOf(values))))
  }

  lemma {:induction false} TextsAre(values: multiset<string>)
    ensures multiset(TextsOf(values)) == values
    decreases |values|
  {
    if values != multiset{} {
      var texts := TextsOf(values);
      var init, v := texts[..|texts| - 1], texts[|texts| - 1];
      assert v in values && init == TextsOf(values - multiset{v});
      TextsAre(values - multiset{v});
      assert texts == init + [v];
    }
  }

  lemma {:induction false} EntriesAre(codec: Codec, texts: seq<string>, e: Entry)
    ensures e in EntriesOf(codec, texts) <==> exists i :: 0 <= i < |texts| && e in codec.decode(texts[i])
  {
    if texts != [] {
      var init := texts[..|texts| - 1];
      EntriesAre(codec, init, e);
      if i :| 0 <= i < |init| && e in codec.decode(init[i]) { assert e in codec.decode(texts[i]); }
      if i :| 0 <= i < |texts| && e in codec.decode(texts[i]) {
        if i < |init| { assert e in codec.decode(init[i]); }
      }
    }
  }

  lemma HeldEntries(codec: Codec, values: multiset<string>, e: Entry)
    ensures e in EntriesOf(codec, TextsOf(values)) <==> exists v :: v in values && e in codec.decode(v)
  {
    var texts := TextsOf(values);
    TextsAre(values);
    EntriesAre(codec, texts, e);
    if v :| v in values && e in codec.decode(v) {
      assert v in texts;
      var i :| 0 <= i < |texts| && texts[i] == v;
    }
    if i :| 0 <= i < |texts| && e in codec.decode(texts[i]) { assert texts[i] in values; }
  }

  /** The merge with one more value is the merge of the merge and that value's list. */
  lemma MergedWithOne(codec: Codec, others: multiset<string>, v: string)
    requires Faithful(codec)
    ensures MergedText(codec, others + Single(v)) ==
            codec.encode(MergeOf(codec.decode(MergedText(codec, others)) + codec.decode(v)))
  {
    var before, all := EntriesOf(codec, TextsOf(others)), EntriesOf(codec, TextsOf(others + Single(v)));
    var own := codec.decode(v);
    MergeOfIs(before);
    MergeOfIs(all);
    MergeOfIs(MergeOf(before) + own);
    MergeOfIs(before + own);
    MergeInParts(before, own, MergeOf(before), MergeOf(MergeOf(before) + own), MergeOf(before + own));
    forall e ensures e in all <==> e in before + own {
      HeldEntries(codec, others, e);
      HeldEntries(codec, others + Single(v), e);
      if x :| x in others && e in codec.decode(x) { assert x in others + Single(v); }
      if e in own { assert v in others + Single(v); }
    }
    MergeIgnoresOrder(all, before + own, MergeOf(all), MergeOf(before + own));
  }

  /** A plugin with this merge. */
  ghost function ListPlugin(code: int, name: string, codec: Codec,
                            handle: (Parcel, string, string) -> Handled): Plugin
  {
    Plugin(code, name, true, handle, (data, value, others) => EventResult(value, others),
           values => MergedText(codec, values))
  }

  /** The handler saves, as merged value, the merge of what it was given with the administrator's whole new list. */
  ghost predicate MergesWhole(codec: Codec, handle: (Parcel, string, string) -> Handled) {
    forall data, own, others :: var h := handle(data, own, others);
      h.ok && h.isChanged ==> h.mergeData == codec.encode(MergeOf(codec.decode(others) + codec.decode(h.policyData)))
  }

  /** With such a handler the notification merge meets the contract the combined-value invariant needs. */
  lemma WholeListsAreMerging(code: int, name: string, codec: Codec, handle: (Parcel, string, string) -> Handled)
    requires name != "" && Faithful(codec) && MergesWhole(codec, handle)
    ensures Merging(ListPlugin(code, name, codec, handle))
  {
    var plugin := ListPlugin(code, name, codec, handle);
    assert plugin.merge(multiset{}) == "" by { assert TextsOf(multiset{}) == []; }
    forall data, own, others
      ensures var h := handle(data, own, plugin.merge(others));
              h.ok && h.isChanged ==> h.mergeData == plugin.merge(others + Single(h.policyData))
    {
      var h := handle(data, own, plugin.merge(others));
      MergedWithOne(codec, others, h.policyData);
    }
  }

  // ----- The set handler of the service -----

  const NOTIFICATION_BUNDLES_MAX_SIZE := 200

  /** The first entry of the user gets the bundles; without one an entry is appended. */
  function AddTrust(items: seq<Entry>, e: Entry): seq<Entry> {
    if items == [] then [e]
    else if items[0].userId == e.userId then [Entry(e.userId, items[0].trustList + e.trustList)] + items[1..]
    else [items[0]] + AddTrust(items[1..], e)
  }

  lemma {:induction false} AddTrustIs(items: seq<Entry>, e: Entry, u: int, b: string)
    ensures Trusts(AddTrust(items, e), u, b) <==> Trusts(items, u, b) || (e.userId == u && b in e.trustList)
  {
    if items == [] {
      ConsIs(e, [], u, b);
      assert [e] + [] == [e];
    } else {
      var first, rest := items[0], items[1..];
      assert items == [first] + rest;
      ConsIs(first, rest, u, b);
      if first.userId == e.userId {
        ConsIs(Entry(e.userId, first.trustList + e.trustList), rest, u, b);
      } else {
        AddTrustIs(rest, e, u, b);
        ConsIs(first, AddTrust(rest, e), u, b);
      }
    }
  }

  function FirstTrust(items: seq<Entry>, user: int): Option<set<string>> {
    if items == [] then None
    else if items[0].userId == user then Some(items[0].trustList)
    else FirstTrust(items[1..], user)
  }

  /** `OnSetPolicy`: the request's bundles go into the administrator's own list and into the others' merge. When the
      others do not name the user, the size that is checked is that of the first entry of the own list. `conflict` is
      the notification ban, `applies` the answer of the notification service. */
  function SetHandle(codec: Codec, conflict: bool, applies: seq<Entry> -> bool, data: Parcel, own: string,
                     others: string): Handled
  {
    var e := codec.request(data);
    var current, merged := AddTrust(codec.decode(own), e), AddTrust(codec.decode(others), e);
    var named := FirstTrust(codec.decode(others), e.userId);
    var checked := if named.Some? then named.value + e.trustList else FirstListed(current);
    if e.userId <= 0 || e.trustList == {} || conflict || |checked| > NOTIFICATION_BUNDLES_MAX_SIZE || !applies(merged)
    then Handled(false, own, others, false)
    else Handled(true, codec.encode(current), codec.encode(merged), own != codec.encode(current))
  }

  function FirstListed(items: seq<Entry>): set<string> {
    if items == [] then {} else items[0].trustList
  }

  /** The user's first entry. */
  ghost predicate FirstEntry(items: seq<Entry>, user: int, k: nat) {
    k < |items| && items[k].userId == user && forall j :: 0 <= j < k ==> items[j].userId != user
  }

  lemma {:induction false} FirstTrustIs(items: seq<Entry>, user: int)
    ensures forall k: nat :: FirstEntry(items, user, k) ==> FirstTrust(items, user) == Some(items[k].trustList)
    ensures (forall k :: 0 <= k < |items| ==> items[k].userId != user) ==> FirstTrust(items, user) == None
  {
    if items != [] && items[0].userId != user {
      FirstTrustIs(items[1..], user);
      forall k: nat | FirstEntry(items, user, k) ensures FirstTrust(items, user) == Some(items[k].trustList) {
        assert FirstEntry(items[1..], user, k - 1) && items[1..][k - 1] == items[k];
      }
    }
  }

  /** What the first entry of the administrator's new list holds. */
  function OwnFirst(mine: seq<Entry>, e: Entry): set<string> {
    if mine == [] then e.trustList
    else if mine[0].userId == e.userId then mine[0].trustList + e.trustList
    else mine[0].trustList
  }

  /** When the handler succeeds: the size that counts is that of the others' list of the user with the request, and when
      the others do not name the user, of the first list of the administrator, whosever it is. A refusal changes
      nothing. */
  lemma SetSucceedsIff(codec: Codec, conflict: bool, applies: seq<Entry> -> bool, data: Parcel, own: string,
                       others: string)
    ensures var e, h := codec.request(data), SetHandle(codec, conflict, applies, data, own, others);
            var mine, theirs := codec.decode(own), codec.decode(others);
            var asked := 0 < e.userId && e.trustList != {} && !conflict && applies(AddTrust(theirs, e));
            && (forall k: nat :: FirstEntry(theirs, e.userId, k) ==>
                  (h.ok <==> asked && |theirs[k].trustList + e.trustList| <= 200))
            && ((forall k :: 0 <= k < |theirs| ==> theirs[k].userId != e.userId) ==>
                  (h.ok <==> asked && |OwnFirst(mine, e)| <= 200))
            && (!h.ok ==> h == Handled(false, own, others, false))
            && (h.ok ==> (h.isChanged <==> own != h.policyData))
  {
    var e, theirs := codec.request(data), codec.decode(others);
    FirstTrustIs(theirs, e.userId);
  }

  /** So the limit can be missed: an administrator whose first list is another user's has a list of any length accepted
      for a user nobody else has named, although it would be refused one longer than 200 in its first call. */
  lemma LimitIsMissed(codec: Codec, data: Parcel, v: int, few: set<string>)
    requires Faithful(codec) && |few| <= 200 && few != {}
    requires var e := codec.request(data); 0 < e.userId && e.userId != v && |e.trustList| > 200
    ensures var e, h := codec.request(data),
                        SetHandle(codec, false, list => true, data, codec.encode([Entry(v, few)]), "");
            && h.ok && (forall b :: b in e.trustList ==> Trusts(codec.decode(h.mergeData), e.userId, b))
            && !SetHandle(codec, false, list => true, data, "", "").ok
  {
    var e := codec.request(data);
    SetSucceedsIff(codec, false, list => true, data, codec.encode([Entry(v, few)]), "");
    SetSucceedsIff(codec, false, list => true, data, "", "");
    forall b | b in e.trustList ensures Trusts(AddTrust([], e), e.userId, b) { AddTrustIs([], e, e.userId, b); }
  }

  /** What is trusted by the saved merged value is what the others or the administrator's new list trust. */
  ghost predicate TrustsAll(codec: Codec, others: string, h: Handled) {
    forall u, b :: Trusts(codec.decode(h.mergeData), u, b) <==>
                   Trusts(codec.decode(others), u, b) || Trusts(codec.decode(h.policyData), u, b)
  }

  /** The set handler saves the right merged value exactly when every bundle the administrator trusted before is trusted
      by another administrator or asked for again. */
  lemma SetKeepsOwnBundlesIff(codec: Codec, conflict: bool, applies: seq<Entry> -> bool, data: Parcel, own: string,
                              others: string)
    requires Faithful(codec) && SetHandle(codec, conflict, applies, data, own, others).ok
    ensures var e := codec.request(data);
            TrustsAll(codec, others, SetHandle(codec, conflict, applies, data, own, others)) <==>
            forall u, b :: Trusts(codec.decode(own), u, b) ==>
              Trusts(codec.decode(others), u, b) || (u == e.userId && b in e.trustList)
  {
    var e, h := codec.request(data), SetHandle(codec, conflict, applies, data, own, others);
    var before, merge := codec.decode(own), codec.decode(others);
    forall u, b
      ensures Trusts(codec.decode(h.mergeData), u, b) <==> Trusts(merge, u, b) || (e.userId == u && b in e.trustList)
      ensures Trusts(codec.decode(h.policyData), u, b) <==> Trusts(before, u, b) || (e.userId == u && b in e.trustList)
    {
      AddTrustIs(merge, e, u, b);
      AddTrustIs(before, e, u, b);
    }
  }

  ghost function NotificationService(name: string, codec: Codec): Plugin {
    ListPlugin(7, name, codec, (data, own, others) => SetHandle(codec, false, list => true, data, own, others))
  }

  lemma SetHandleTwice(codec: Codec, first: Parcel, second: Parcel, x: string, y: string)
    requires Faithful(codec) && codec.request(first) == Entry(100, {x}) &&
             codec.request(second) == Entry(100, {y}) && x != y
    ensures var own, all := codec.encode([Entry(100, {x})]), codec.encode([Entry(100, {x, y})]);
            && SetHandle(codec, false, list => true, first, "", "") == Handled(true, own, own, true) && own != "" &&
               all != ""
            && SetHandle(codec, false, list => true, second, own, "") ==
               Handled(true, all, codec.encode([Entry(100, {y})]), true)
  {
    var one, both := [Entry(100, {x})], [Entry(100, {x, y})];
    assert {x} + {y} == {x, y} && one[1..] == [];
    assert AddTrust(one, Entry(100, {y})) == both;
    assert AddTrust([], Entry(100, {y})) == [Entry(100, {y})];
    assert y in {x, y} && y !in {x} && both != one;
    assert codec.decode(codec.encode(one)) == one && codec.decode(codec.encode(both)) == both;
  }

  lemma MergedAlone(codec: Codec, e: Entry)
    requires Faithful(codec)
    ensures MergedText(codec, multiset{codec.encode([e])}) == codec.encode([e])
  {
    var v := codec.encode([e]);
    assert codec.decode(v) == [e] && v != "";
    MergedWithOne(codec, multiset{}, v);
    assert TextsOf(multiset{}) == [] && EntriesOf(codec, []) == [] && MergeOf([]) == [];
    assert multiset{} + Single(v) == multiset{v} && [] + [e] == [e];
    assert [e][..0] == [] && MergeOf([e]) == [e];
  }

  /** One administrator asks for one bundle and then for another: its own value holds both, the combined value only the
      second, and is not the merge of what the administrators hold. */
  lemma OwnBundlesLost(name: string, codec: Codec, first: Parcel, second: Parcel, x: string, y: string)
    requires name != "" && Faithful(codec) && x != y
    requires codec.request(first) == Entry(100, {x}) && codec.request(second) == Entry(100, {y})
    ensures var plugin := NotificationService(name, codec);
            var once := UpdateSpec(NO_STORE, plugin, "a", first, DEFAULT_USER_ID, LOAD_OK, Done, Done).state;
            var twice := UpdateSpec(once, plugin, "a", second, DEFAULT_USER_ID, LOAD_OK, Done, Done);
            var c := CacheOf(twice.state, DEFAULT_USER_ID);
            && twice.ok && Holders(c, name) == map["a" := codec.encode([Entry(100, {x, y})])]
            && Find(c.combined, name) == Some(codec.encode([Entry(100, {y})])) && !MergedRight(c, plugin)
  {
    var u, plugin := DEFAULT_USER_ID, NotificationService(name, codec);
    var own, all, last := codec.encode([Entry(100, {x})]), codec.encode([Entry(100, {x, y})]),
                          codec.encode([Entry(100, {y})]);
    SetHandleTwice(codec, first, second, x, y);
    FirstSave(plugin, first, own);
    var once := UpdateSpec(NO_STORE, plugin, "a", first, u, LOAD_OK, Done, Done).state;
    NextSave(once, plugin, second, own, all, last);
    NotTheMerge(CacheOf(UpdateSpec(once, plugin, "a", second, u, LOAD_OK, Done, Done).state, u), name, codec, x, y);
  }

  lemma NotTheMerge(c: Cache, name: string, codec: Codec, x: string, y: string)
    requires Faithful(codec) && x != y && Holders(c, name) == map["a" := codec.encode([Entry(100, {x, y})])]
    requires Find(c.combined, name) == Present(codec.encode([Entry(100, {y})]))
    ensures Find(c.combined, name) == Some(codec.encode([Entry(100, {y})])) &&
            !MergedRight(c, NotificationService(name, codec))
  {
    var all, last := codec.encode([Entry(100, {x, y})]), codec.encode([Entry(100, {y})]);
    var h: Items := map["a" := all];
    assert codec.decode(last) == [Entry(100, {y})] && codec.decode(all) == [Entry(100, {x, y})] && x in {x, y} &&
           x !in {y};
    ValuesWithout(h, "a");
    assert h - {"a"} == map[] && ValuesOf(h) == multiset{all};
    MergedAlone(codec, Entry(100, {x, y}));
  }

  lemma FirstSave(plugin: Plugin, data: Parcel, value: string)
    requires plugin.needSave && plugin.name != "" && value != "" &&
             plugin.handle(data, "", "") == Handled(true, value, value, true)
    ensures var c := CacheOf(UpdateSpec(NO_STORE, plugin, "a", data, DEFAULT_USER_ID, LOAD_OK, Done, Done).state,
                             DEFAULT_USER_ID);
            Transposed(c.admins, c.index) && Holders(c, plugin.name) == map["a" := value]
  {
    var u, l := DEFAULT_USER_ID, Loaded(NO_STORE, DEFAULT_USER_ID, LOAD_OK);
    LoadedCaches(NO_STORE, u);
    var c := l.caches[u];
    assert c == EMPTY_CACHE && CacheOf(l, u) == EMPTY_CACHE;
    assert Holders(c, plugin.name) == map[] && Holders(c, plugin.name) - {"a"} == map[];
    SetPolicyCaches(l, u, "a", plugin.name, value, value, u);
    HoldersAfterSet(c, l.tables, u, "a", plugin.name, value, value);
  }

  lemma NextSave(s: ManagerState, plugin: Plugin, data: Parcel, was: string, value: string, merged: string)
    requires var c := CacheOf(s, DEFAULT_USER_ID);
             Transposed(c.admins, c.index) && Holders(c, plugin.name) == map["a" := was]
    requires plugin.needSave && plugin.name != "" && value != "" &&
             plugin.handle(data, was, "") == Handled(true, value, merged, true)
    ensures var r := UpdateSpec(s, plugin, "a", data, DEFAULT_USER_ID, LOAD_OK, Done, Done);
            var c := CacheOf(r.state, DEFAULT_USER_ID);
            r.ok && Holders(c, plugin.name) == map["a" := value] && Find(c.combined, plugin.name) == Present(merged)
  {
    var u, l := DEFAULT_USER_ID, Loaded(s, DEFAULT_USER_ID, LOAD_OK);
    LoadedCaches(s, u);
    var c := l.caches[u];
    assert c == CacheOf(s, u);
    assert Holders(c, plugin.name) - {"a"} == map[] && map["a" := was]["a" := value] == map["a" := value];
    assert Lookup(c.admins, "a", plugin.name) == Lookup(c.index, plugin.name, "a") == Some(was);
    SetPolicyCaches(l, u, "a", plugin.name, value, merged, u);
    HoldersAfterSet(c, l.tables, u, "a", plugin.name, value, merged);
  }
}
