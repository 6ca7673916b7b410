/** What one update, one event round, a whole dispatch and one removal leave of a policy: who holds what, and the
    combined value. */
module PipelineLaws {
  import opened PolicyModel
  import opened StoreLaws
  import opened ManagerModel
  import opened PipelineModel

  /** The policy is held like this, with this combined value, by an exact index. */
  ghost predicate HeldLike(s: ManagerState, u: int, p: string, held: Items, combined: Option<string>) {
    var c := CacheOf(s, u);
    && NoEmptyInner(c.admins) && Transposed(c.admins, c.index)
    && (forall a :: Lookup(c.admins, a, p) == Find(held, a)) && (p in c.index <==> held != map[])
    && (p in c.index ==> c.index[p] == held)
    && Find(c.combined, p) == combined
  }

  /** Nothing but this policy of this user differs. */
  ghost predicate OnlyPolicy(s: ManagerState, s': ManagerState, u: int, p: string) {
    && (forall v, a, q :: v != u || q != p ==> Value(s', v, a, q) == Value(s, v, a, q))
    && (forall v, q :: v != u || q != p ==> Combined(s', v, q) == Combined(s, v, q))
  }

  function WithValue(held: Items, a: string, v: string): Items {
    if v == "" then held - {a} else held[a := v]
  }

  /** What the other holders' values merge to; nothing is merged when there is none. */
  ghost function MergeWithout(held: Items, plugin: Plugin, a: string): string {
    if held - {a} == map[] then "" else plugin.merge(ValuesOf(held - {a}))
  }

  lemma HeldLikeIs(s: ManagerState, u: int, p: string, held: Items, combined: Option<string>)
    requires HeldLike(s, u, p, held, combined)
    ensures Holders(CacheOf(s, u), p) == held
  {
  }

  lemma LikeHolders(s: ManagerState, u: int, p: string)
    requires NoEmptyInner(CacheOf(s, u).admins) && Transposed(CacheOf(s, u).admins, CacheOf(s, u).index)
    ensures HeldLike(s, u, p, Holders(CacheOf(s, u), p), Find(CacheOf(s, u).combined, p))
  {
    var c := CacheOf(s, u);
    forall a ensures Lookup(c.admins, a, p) == Find(Holders(c, p), a) {
      assert Lookup(c.admins, a, p) == Lookup(c.index, p, a);
    }
    assert Holders(c, p) == Under(c.index, p);
    if p in c.index { assert c.index[p] != map[]; }
  }

  lemma SavedEntries(s: ManagerState, u: int, a: string, p: string, v: string, merged: string)
    ensures OnlyPolicy(s, SetPolicyAll(s, u, a, p, v, merged, LOAD_OK, Done, Done).state, u, p)
  {
    var s' := SetPolicyAll(s, u, a, p, v, merged, LOAD_OK, Done, Done).state;
    forall w, x, q ensures w != u || q != p ==> Value(s', w, x, q) == Value(s, w, x, q) {
      SetPolicyCaches(s, u, a, p, v, merged, w);
      if w == u { SetPolicyEntries(CacheOf(s, u), s.tables, u, a, p, v, merged, Done, Done, x, q); }
    }
    forall w, q ensures w != u || q != p ==> Combined(s', w, q) == Combined(s, w, q) {
      SetPolicyCaches(s, u, a, p, v, merged, w);
      if w == u { SetPolicyEntries(CacheOf(s, u), s.tables, u, a, p, v, merged, Done, Done, "", q); }
    }
  }

  lemma SavedLike(s: ManagerState, u: int, a: string, p: string, v: string, merged: string, held: Items,
                  combined: Option<string>)
    requires HeldLike(s, u, p, held, combined) && a != "" && p != ""
    ensures var s' := SetPolicyAll(s, u, a, p, v, merged, LOAD_OK, Done, Done).state;
            HeldLike(s', u, p, WithValue(held, a, v), Present(merged)) && OnlyPolicy(s, s', u, p)
  {
    var s', c := SetPolicyAll(s, u, a, p, v, merged, LOAD_OK, Done, Done).state, CacheOf(s, u);
    SavedEntries(s, u, a, p, v, merged);
    SetPolicyCaches(s, u, a, p, v, merged, u);
    HeldLikeIs(s, u, p, held, combined);
    HoldersAfterSet(c, s.tables, u, a, p, v, merged);
    FilledAfterSet(c, s.tables, u, a, p, v, merged);
    LikeHolders(s', u, p);
  }

  lemma LoadedLike(s: ManagerState, u: int, p: string, held: Items, combined: Option<string>)
    requires HeldLike(s, u, p, held, combined)
    ensures var l := Loaded(s, u, LOAD_OK);
            && HeldLike(l, u, p, held, combined) && OnlyPolicy(s, l, u, p)
            && l.caches[u] == CacheOf(l, u) == CacheOf(s, u)
  {
    LoadedCaches(s, u);
  }

  lemma OnlyTrans(s: ManagerState, l: ManagerState, t: ManagerState, u: int, p: string)
    requires OnlyPolicy(s, l, u, p) && OnlyPolicy(l, t, u, p)
    ensures OnlyPolicy(s, t, u, p)
  {
    forall v, a, q ensures v != u || q != p ==> Value(t, v, a, q) == Value(s, v, a, q) {
      assert v != u || q != p ==> Value(l, v, a, q) == Value(s, v, a, q);
    }
    forall v, q ensures v != u || q != p ==> Combined(t, v, q) == Combined(s, v, q) {
      assert v != u || q != p ==> Combined(l, v, q) == Combined(s, v, q);
    }
  }

  lemma OthersAre(c: Cache, plugin: Plugin, a: string)
    ensures OthersMerge(c, plugin, a) == MergeWithout(Holders(c, plugin.name), plugin, a)
  {
  }

  // ----- One update -----

  /** An update hands the handler the administrator's own value and the merge of the others'. When the handler answers a
      change of a saved policy, the administrator holds exactly the value it answered, none when that is empty, and the
      combined value is the merge it answered; otherwise nothing changes. The reply is the handler's. */
  lemma UpdateLeaves(s: ManagerState, plugin: Plugin, a: string, data: Parcel, u: int, held: Items,
                     combined: Option<string>)
    requires plugin.name != "" && a != "" && HeldLike(s, u, plugin.name, held, combined)
    ensures var h := plugin.handle(data, OrEmpty(Find(held, a)), MergeWithout(held, plugin, a));
            var r := UpdateSpec(s, plugin, a, data, u, LOAD_OK, Done, Done);
            && r.ok == h.ok && OnlyPolicy(s, r.state, u, plugin.name)
            && if h.ok && plugin.needSave && h.isChanged
               then HeldLike(r.state, u, plugin.name, WithValue(held, a, h.policyData), Present(h.mergeData))
               else HeldLike(r.state, u, plugin.name, held, combined)
  {
    var l := Loaded(s, u, LOAD_OK);
    LoadedLike(s, u, plugin.name, held, combined);
    HeldLikeIs(l, u, plugin.name, held, combined);
    OthersAre(CacheOf(l, u), plugin, a);
    var h := plugin.handle(data, OrEmpty(Find(held, a)), MergeWithout(held, plugin, a));
    if h.ok && plugin.needSave && h.isChanged {
      SavedLike(l, u, a, plugin.name, h.policyData, h.mergeData, held, combined);
      OnlyTrans(s, l, UpdateSpec(s, plugin, a, data, u, LOAD_OK, Done, Done).state, u, plugin.name);
    }
  }

  /** The reply of an update is the handler's, however the save ends. */
  lemma UpdateReplies(s: ManagerState, plugin: Plugin, a: string, data: Parcel, u: int, held: Items,
                      combined: Option<string>, combinedIo: Outcome, adminIo: Outcome)
    requires plugin.name != "" && a != "" && HeldLike(s, u, plugin.name, held, combined)
    ensures var h := plugin.handle(data, OrEmpty(Find(held, a)), MergeWithout(held, plugin, a));
            UpdateSpec(s, plugin, a, data, u, LOAD_OK, combinedIo, adminIo).ok == h.ok
  {
    var l := Loaded(s, u, LOAD_OK);
    LoadedLike(s, u, plugin.name, held, combined);
    HeldLikeIs(l, u, plugin.name, held, combined);
    OthersAre(CacheOf(l, u), plugin, a);
  }

  // ----- Events -----

  /** One round saves what the handler answers, an empty value as well as any other. */
  lemma RoundLeaves(s: ManagerState, plugin: Plugin, a: string, value: string, data: Parcel, u: int, held: Items,
                    combined: Option<string>)
    requires plugin.name != "" && a != "" && HeldLike(s, u, plugin.name, held, combined)
    ensures var e := plugin.onEvent(data, value, MergeWithout(held, plugin, a));
            var s' := EventStep(s, plugin, a, value, data, u, LOAD_OK, Done, Done);
            && OnlyPolicy(s, s', u, plugin.name)
            && if plugin.needSave
               then HeldLike(s', u, plugin.name, WithValue(held, a, e.policyData), Present(e.mergeData))
               else HeldLike(s', u, plugin.name, held, combined)
  {
    var l := Loaded(s, u, LOAD_OK);
    LoadedLike(s, u, plugin.name, held, combined);
    HeldLikeIs(l, u, plugin.name, held, combined);
    OthersAre(CacheOf(l, u), plugin, a);
    var e := plugin.onEvent(data, value, MergeWithout(held, plugin, a));
    if plugin.needSave {
      SavedLike(l, u, a, plugin.name, e.policyData, e.mergeData, held, combined);
      OnlyTrans(s, l, EventStep(s, plugin, a, value, data, u, LOAD_OK, Done, Done), u, plugin.name);
    }
  }

  /** A policy's holders and combined value. */
  datatype Held = Held(holders: Items, combined: Option<string>)

  /** The dispatch as a loop over the holders: each administrator in turn gets the value the handler answers to the
      value read before the loop, and the combined value is the merge answered last. */
  ghost function Dispatched(before: Held, plugin: Plugin, order: seq<string>, values: Items, data: Parcel): Held
    requires forall a :: a in order ==> a in values
  {
    if order == [] then before
    else
      var n := |order| - 1;
      assert order[n] in order && forall a :: a in order[..n] ==> a in order;
      var now := Dispatched(before, plugin, order[..n], values, data);
      var e := plugin.onEvent(data, values[order[n]], MergeWithout(now.holders, plugin, order[n]));
      Held(WithValue(now.holders, order[n], e.policyData), Present(e.mergeData))
  }

  /** The rounds on maps and rows are that loop. */
  lemma {:induction false} DispatchLeaves(s: ManagerState, plugin: Plugin, order: seq<string>, values: Items,
                                          data: Parcel, u: int, held: Items, combined: Option<string>)
    requires plugin.needSave && plugin.name != "" && "" !in order && forall a :: a in order ==> a in values
    requires HeldLike(s, u, plugin.name, held, combined)
    ensures var after := Dispatched(Held(held, combined), plugin, order, values, data);
            var s' := EventRounds(s, plugin, order, values, data, u, LOAD_OK, Done, Done);
            HeldLike(s', u, plugin.name, after.holders, after.combined) && OnlyPolicy(s, s', u, plugin.name)
  {
    if order != [] {
      var n := |order| - 1;
      assert order[n] in order && forall a :: a in order[..n] ==> a in order;
      DispatchLeaves(s, plugin, order[..n], values, data, u, held, combined);
      var now := Dispatched(Held(held, combined), plugin, order[..n], values, data);
      var before := EventRounds(s, plugin, order[..n], values, data, u, LOAD_OK, Done, Done);
      RoundLeaves(before, plugin, order[n], values[order[n]], data, u, now.holders, now.combined);
      OnlyTrans(s, before, EventRounds(s, plugin, order, values, data, u, LOAD_OK, Done, Done), u, plugin.name);
    }
  }

  // ----- Switches -----

  lemma {:induction false} ValueAmong(m: Items, v: string)
    requires v != ""
    ensures v in ValuesOf(m) <==> exists a :: a in m && m[a] == v
    decreases |m|
  {
    if m != map[] {
      var k := SomeKey(m);
      ValueAmong(m - {k}, v);
      if a :| a in m && m[a] == v && a != k { assert a in m - {k} && (m - {k})[a] == v; }
      if a :| a in m - {k} && (m - {k})[a] == v { assert a in m && m[a] == v; }
    }
  }

  ghost predicate OnForAnother(held: Items, a: string) {
    exists b :: b in held && b != a && held[b] == TRUE_TEXT
  }

  /** A switch: it can be set when another administrator has it on or the device takes it. Then the administrator holds
      what it asked for, and a changed value makes the combined one say whether anybody has it on; otherwise nothing
      changes. */
  lemma SwitchLeaves(s: ManagerState, code: int, name: string, applies: bool -> bool, a: string, data: Parcel, u: int,
                     held: Items, combined: Option<string>)
    requires name != "" && a != "" && HeldLike(s, u, name, held, combined)
    ensures var wanted, forced := data == TRUE_TEXT, OnForAnother(held, a);
            var r := UpdateSpec(s, BasicBoolPlugin(code, name, applies), a, data, u, LOAD_OK, Done, Done);
            var value := if wanted then TRUE_TEXT else "";
            && (r.ok <==> forced || applies(wanted)) && OnlyPolicy(s, r.state, u, name)
            && if r.ok && OrEmpty(Find(held, a)) != value
               then HeldLike(r.state, u, name, WithValue(held, a, value),
                             if wanted || forced then Some(TRUE_TEXT) else None)
               else HeldLike(r.state, u, name, held, combined)
  {
    var plugin, rest := BasicBoolPlugin(code, name, applies), held - {a};
    UpdateLeaves(s, plugin, a, data, u, held, combined);
    ValueAmong(rest, TRUE_TEXT);
    if OnForAnother(held, a) {
      var b :| b in held && b != a && held[b] == TRUE_TEXT;
      assert b in rest && rest[b] == TRUE_TEXT;
    }
    if b :| b in rest && rest[b] == TRUE_TEXT { assert b in held && b != a && held[b] == TRUE_TEXT; }
  }

  // ----- The input restriction is lifted at every boot -----

  /** The handler of the restriction of injected input: it empties the administrator's value and leaves the others'
      merge. */
  function UinputPlugin(code: int, name: string, applies: bool -> bool): Plugin {
    BasicBoolPlugin(code, name, applies).(onEvent := (data, own, others) => EventResult("", others))
  }

  function Listed(order: seq<string>): set<string> {
    set a | a in order
  }

  lemma {:induction false} EmptiedInOrder(before: Held, plugin: Plugin, order: seq<string>, values: Items, data: Parcel)
    requires forall a :: a in order ==> a in values
    requires forall d, own, others :: plugin.onEvent(d, own, others) == EventResult("", others)
    ensures var after := Dispatched(before, plugin, order, values, data);
            && after.holders == before.holders - Listed(order)
            && (order != [] ==> after.combined == Present(MergeWithout(after.holders, plugin, order[|order| - 1])))
  {
    if order == [] {
      assert Listed(order) == {};
    } else {
      var n := |order| - 1;
      assert order[n] in order && forall a :: a in order[..n] ==> a in order;
      EmptiedInOrder(before, plugin, order[..n], values, data);
      var now := Dispatched(before, plugin, order[..n], values, data).holders;
      SetOfAll(order);
      assert now - {order[n]} == before.holders - Listed(order);
      assert now - {order[n]} - {order[n]} == now - {order[n]};
    }
  }

  lemma SetOfAll(order: seq<string>)
    requires order != []
    ensures Listed(order) == Listed(order[..|order| - 1]) + {order[|order| - 1]}
  {
    assert order == order[..|order| - 1] + [order[|order| - 1]];
  }

  /** Whoever has restricted injected input, after the event of a boot nobody holds the policy and there is no combined
      value. */
  lemma BootLiftsRestriction(s: ManagerState, code: int, name: string, applies: bool -> bool, order: seq<string>,
                             data: Parcel, u: int, held: Items, combined: Option<string>)
    requires name != "" && HeldLike(s, u, name, held, combined) && IsOrderOf(order, held) && "" !in order && order != []
    ensures var s' := EventRounds(s, UinputPlugin(code, name, applies), order, held, data, u, LOAD_OK, Done, Done);
            HeldLike(s', u, name, map[], None) && OnlyPolicy(s, s', u, name)
  {
    var plugin := UinputPlugin(code, name, applies);
    DispatchLeaves(s, plugin, order, held, data, u, held, combined);
    EmptiedInOrder(Held(held, combined), plugin, order, held, data);
    var after := Dispatched(Held(held, combined), plugin, order, held, data);
    assert held - Listed(order) == map[];
    assert after.holders - {order[|order| - 1]} == map[];
  }

  /** From an empty store one administrator restricts injected input, the device boots, and the policy is gone. */
  lemma RestrictionAndBoot(code: int, name: string, a: string, data: Parcel, u: int)
    requires name != "" && a != ""
    ensures var plugin := UinputPlugin(code, name, b => true);
            var on := UpdateSpec(NO_STORE, plugin, a, TRUE_TEXT, u, LOAD_OK, Done, Done).state;
            && HeldLike(on, u, name, map[a := TRUE_TEXT], Some(TRUE_TEXT))
            && HeldLike(EventStep(on, plugin, a, TRUE_TEXT, data, u, LOAD_OK, Done, Done), u, name, map[], None)
  {
    var plugin := UinputPlugin(code, name, b => true);
    var on := UpdateSpec(NO_STORE, plugin, a, TRUE_TEXT, u, LOAD_OK, Done, Done).state;
    var none, held: Items := map[], map[a := TRUE_TEXT];
    assert CacheOf(NO_STORE, u) == EMPTY_CACHE;
    assert HeldLike(NO_STORE, u, name, none, None);
    assert none - {a} == none && none[a := TRUE_TEXT] == held && held - {a} == map[];
    UpdateLeaves(NO_STORE, plugin, a, TRUE_TEXT, u, none, None);
    RoundLeaves(on, plugin, a, TRUE_TEXT, data, u, held, Some(TRUE_TEXT));
  }

  // ----- Removals -----

  /** A removal of an administrator's item of a saved policy takes its value and leaves the merge of the others as the
      combined value, none when nobody held the policy; it succeeds. That of a policy that is not saved changes
      nothing. */
  lemma RemovalLeaves(s: ManagerState, plugin: Plugin, a: string, u: int, held: Items, combined: Option<string>)
    requires plugin.name != "" && a != "" && HeldLike(s, u, plugin.name, held, combined)
    ensures var r := RemoveSpec(s, plugin, a, u, LOAD_OK, Done, Done);
            && r.ok && OnlyPolicy(s, r.state, u, plugin.name)
            && if plugin.needSave
               then HeldLike(r.state, u, plugin.name, held - {a}, Present(MergeWithout(held, plugin, a)))
               else HeldLike(r.state, u, plugin.name, held, combined)
  {
    var l, p := Loaded(s, u, LOAD_OK), plugin.name;
    LoadedLike(s, u, p, held, combined);
    HeldLikeIs(l, u, p, held, combined);
    OthersAre(CacheOf(l, u), plugin, a);
    if plugin.needSave {
      if held == map[] {
        ClearedLike(l, u, p, combined);
        assert held - {a} == map[];
      } else {
        SavedLike(l, u, a, p, "", MergeWithout(held, plugin, a), held, combined);
      }
      OnlyTrans(s, l, RemoveSpec(s, plugin, a, u, LOAD_OK, Done, Done).state, u, p);
    }
  }

  lemma ClearedLike(s: ManagerState, u: int, p: string, combined: Option<string>)
    requires HeldLike(s, u, p, map[], combined) && p != ""
    ensures var r := SetPolicyAll(s, u, "", p, "", "", LOAD_OK, Done, Done);
            r.err == ErrOk && HeldLike(r.state, u, p, map[], None) && OnlyPolicy(s, r.state, u, p)
  {
    SavedEntries(s, u, "", p, "", "");
    SetPolicyCaches(s, u, "", p, "", "", u);
  }
}
