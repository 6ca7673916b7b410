/** Read, merge, execute and write of one policy, as functions of the manager state. A plugin is its name,
    its saving flag and three pure functions. */
module PipelineModel {
  import opened PolicyModel
  import opened StoreLaws
  import opened ManagerModel

  /** The request payload of a call or an event. */
  type Parcel = string

  datatype Handled = Handled(ok: bool, policyData: string, mergeData: string, isChanged: bool)

  datatype EventResult = EventResult(policyData: string, mergeData: string)

  /** `handle` and `onEvent` get the admin's value and the merge of the other admins' values; `merge`
      depends on the multiset of the admins' values only. */
  datatype Plugin = Plugin(
    code: int,
    name: string,
    needSave: bool,
    handle: (Parcel, string, string) -> Handled,
    onEvent: (Parcel, string, string) -> EventResult,
    merge: multiset<string> -> string)

  function OrEmpty(value: Option<string>): string {
    if value.Some? then value.value else ""
  }

  /** An empty value counts as no value. */
  function Single(value: string): multiset<string> {
    if value == "" then multiset{} else multiset{value}
  }

  ghost function SomeKey(m: Items): (k: string)
    requires m != map[]
    ensures k in m
  {
    var k :| k in m;
    k
  }

  ghost function ValuesOf(m: Items): multiset<string>
    decreases |m|
  {
    if m == map[] then multiset{}
    else
      var k := SomeKey(m);
      Single(m[k]) + ValuesOf(m - {k})
  }

  function Holders(c: Cache, policy: string): Items {
    Under(c.index, policy)
  }

  /** `GetOthersMergePolicyData`: nothing is merged when no other admin holds the policy. */
  ghost function OthersMerge(c: Cache, plugin: Plugin, admin: string): string {
    var others := Holders(c, plugin.name) - {admin};
    if others == map[] then "" else plugin.merge(ValuesOf(others))
  }

  datatype CallResult = CallResult(state: ManagerState, ok: bool)

  ghost function UpdateSpec(s: ManagerState, plugin: Plugin, admin: string, data: Parcel, userId: int,
                            load: LoadIo, combinedIo: Outcome, adminIo: Outcome): CallResult
  {
    var l := Loaded(s, userId, load);
    var c := l.caches[userId];
    var h := plugin.handle(data, OrEmpty(ReadPolicy(c, admin, plugin.name)), OthersMerge(c, plugin, admin));
    if h.ok && plugin.needSave && h.isChanged
    then CallResult(SetPolicyAll(l, userId, admin, plugin.name, h.policyData, h.mergeData, load, combinedIo,
                                 adminIo).state, true)
    else CallResult(l, h.ok)
  }

  /** What `RemoveAdminItem` saves: only the combined value is cleared when nobody holds the policy. */
  ghost function RemoveItemSpec(s: ManagerState, policy: string, admin: string, merged: string, userId: int,
                                load: LoadIo, combinedIo: Outcome, adminIo: Outcome): ManagerResult
  {
    var l := Loaded(s, userId, load);
    if Holders(l.caches[userId], policy) == map[]
    then SetPolicyAll(l, userId, "", policy, "", "", load, combinedIo, adminIo)
    else SetPolicyAll(l, userId, admin, policy, "", merged, load, combinedIo, adminIo)
  }

  /** `RemoveAdminItem` once its plugin is found; the handler's own result does not matter. */
  ghost function RemoveSpec(s: ManagerState, plugin: Plugin, admin: string, userId: int,
                            load: LoadIo, combinedIo: Outcome, adminIo: Outcome): CallResult
  {
    var l := Loaded(s, userId, load);
    if !plugin.needSave then CallResult(l, true)
    else
      var merged := OthersMerge(l.caches[userId], plugin, admin);
      var r := RemoveItemSpec(l, plugin.name, admin, merged, userId, load, combinedIo, adminIo);
      CallResult(r.state, r.err == ErrOk)
  }

  /** One round of event dispatch, for an admin and the value read before the loop. */
  ghost function EventStep(s: ManagerState, plugin: Plugin, admin: string, value: string, data: Parcel, userId: int,
                           load: LoadIo, combinedIo: Outcome, adminIo: Outcome): ManagerState
  {
    var l := Loaded(s, userId, load);
    var e := plugin.onEvent(data, value, OthersMerge(l.caches[userId], plugin, admin));
    if plugin.needSave
    then SetPolicyAll(l, userId, admin, plugin.name, e.policyData, e.mergeData, load, combinedIo, adminIo).state
    else l
  }

  ghost function EventRounds(s: ManagerState, plugin: Plugin, order: seq<string>, values: Items, data: Parcel,
                             userId: int, load: LoadIo, combinedIo: Outcome, adminIo: Outcome): ManagerState
    requires forall a :: a in order ==> a in values
  {
    if order == [] then s
    else
      var n := |order| - 1;
      assert forall a :: a in order[..n] ==> a in order;
      assert order[n] in order;
      EventStep(EventRounds(s, plugin, order[..n], values, data, userId, load, combinedIo, adminIo),
                plugin, order[n], values[order[n]], data, userId, load, combinedIo, adminIo)
  }

  lemma EventRoundsNext(s: ManagerState, plugin: Plugin, order: seq<string>, values: Items, data: Parcel, userId: int,
                        load: LoadIo, combinedIo: Outcome, adminIo: Outcome, a: string)
    requires (forall x :: x in order ==> x in values) && a in values
    ensures forall x :: x in order + [a] ==> x in values
    ensures EventRounds(s, plugin, order + [a], values, data, userId, load, combinedIo, adminIo) ==
            EventStep(EventRounds(s, plugin, order, values, data, userId, load, combinedIo, adminIo),
                      plugin, a, values[a], data, userId, load, combinedIo, adminIo)
  {
    assert (order + [a])[..|order|] == order;
  }

  // ----- Multisets of values -----

  lemma {:induction false} ValuesWithout(m: Items, k: string)
    requires k in m
    ensures ValuesOf(m) == Single(m[k]) + ValuesOf(m - {k})
    decreases |m|
  {
    var j := SomeKey(m);
    if j != k {
      var rest := m - {j} - {k};
      assert rest == m - {k} - {j};
      calc {
        ValuesOf(m);
        Single(m[j]) + ValuesOf(m - {j});
        { ValuesWithout(m - {j}, k); }
        Single(m[j]) + (Single(m[k]) + ValuesOf(rest));
        Single(m[k]) + (Single(m[j]) + ValuesOf(rest));
        { ValuesWithout(m - {k}, j); }
        Single(m[k]) + ValuesOf(m - {k});
      }
    }
  }

  lemma ValuesPut(m: Items, k: string, v: string)
    ensures ValuesOf(m[k := v]) == ValuesOf(m - {k}) + Single(v)
  {
    ValuesWithout(m[k := v], k);
    assert m[k := v] - {k} == m - {k};
  }

  lemma ValuesRename(m: Items, a: string, b: string)
    requires b !in m || a == b
    ensures ValuesOf(RenameKey(m, a, b)) == ValuesOf(m)
  {
    if a in m {
      ValuesWithout(m, a);
      ValuesPut(m - {a}, b, m[a]);
      assert m - {a} - {b} == m - {a};
    }
  }

  // ----- The combined value is the merge over all holders -----

  function Present(value: string): Option<string> {
    if value == "" then None else Some(value)
  }

  ghost predicate MergedRight(c: Cache, plugin: Plugin) {
    Find(c.combined, plugin.name) == Present(plugin.merge(ValuesOf(Holders(c, plugin.name))))
  }

  /** The plugin contract: its handler returns the merge of the others' values with the admin's new one. */
  ghost predicate Merging(plugin: Plugin) {
    && plugin.needSave && plugin.name != ""
    && plugin.merge(multiset{}) == ""
    && (forall data, value, others :: var h := plugin.handle(data, value, plugin.merge(others));
          h.ok && h.isChanged ==> h.mergeData == plugin.merge(others + Single(h.policyData)))
  }

  /** And so does the event handler of a plugin that events are dispatched to. */
  ghost predicate EventMerging(plugin: Plugin) {
    forall data, value, others :: var e := plugin.onEvent(data, value, plugin.merge(others));
      e.mergeData == plugin.merge(others + Single(e.policyData))
  }

  ghost predicate EventsMerge(plugin: Plugin) {
    Merging(plugin) ==> EventMerging(plugin)
  }

  function Under(m: NestedItems, k: string): Items {
    if k in m then m[k] else map[]
  }

  lemma UnderPutDrop(m: NestedItems, k: string, l: string, v: string, q: string)
    ensures Under(Put(m, k, l, v), q) == if q == k then Under(m, k)[l := v] else Under(m, q)
    ensures Under(Drop(m, k, l), q) == if q == k then Under(m, k) - {l} else Under(m, q)
  {
  }

  lemma HoldersAfterWrite(c: Cache, t: Tables, userId: int, a: string, p: string, v: string, q: string)
    requires Transposed(c.admins, c.index)
    ensures var c' := WriteAdmin(c, t, userId, a, p, v, Done).cache;
            && Transposed(c'.admins, c'.index) && c'.combined == c.combined
            && Holders(c', q) == if q != p then Holders(c, q)
                                 else if v == "" then Holders(c, p) - {a} else Holders(c, p)[a := v]
  {
    assert IndexAgreesOff(c, {});
    if v == "" { StepIndexDelete(c, t, userId, {}, a, p); } else { StepIndexSet(c, t, userId, {}, a, p, v, Done); }
    var index' := WriteAdmin(c, t, userId, a, p, v, Done).cache.index;
    UnderPutDrop(c.index, p, a, v, q);
    if v == "" && Lookup(c.index, p, a).None? {
      assert index' == c.index;
      assert a !in Under(c.index, p);
    } else if v == "" {
      assert Lookup(c.admins, a, p) == Lookup(c.index, p, a);
      assert index' == Drop(c.index, p, a);
    }
  }

  lemma HoldersAfterSet(c: Cache, t: Tables, userId: int, a: string, p: string, v: string, merged: string)
    requires Transposed(c.admins, c.index) && a != "" && p != ""
    ensures var c' := SetPolicySpec(c, t, userId, a, p, v, merged, Done, Done).cache;
            && Transposed(c'.admins, c'.index)
            && Holders(c', p) == (if v == "" then Holders(c, p) - {a} else Holders(c, p)[a := v])
            && Find(c'.combined, p) == Present(merged)
            && forall q :: q != p ==> Holders(c', q) == Holders(c, q) && Find(c'.combined, q) == Find(c.combined, q)
  {
    var first := WriteCombined(c, t, userId, p, merged, Done);
    forall q ensures Holders(WriteAdmin(first.cache, first.tables, userId, a, p, v, Done).cache, q) ==
                     if q != p then Holders(c, q) else if v == "" then Holders(c, p) - {a} else Holders(c, p)[a := v]
    {
      HoldersAfterWrite(first.cache, first.tables, userId, a, p, v, q);
    }
    HoldersAfterWrite(first.cache, first.tables, userId, a, p, v, p);
  }

  lemma OthersMergeIs(c: Cache, plugin: Plugin, a: string)
    requires Merging(plugin)
    ensures OthersMerge(c, plugin, a) == plugin.merge(ValuesOf(Holders(c, plugin.name) - {a}))
  {
  }

  /** Saving an admin's value together with the merge it contributes to keeps the combined value right. */
  lemma SavedMergeIsRight(c: Cache, t: Tables, userId: int, plugin: Plugin, a: string, v: string, merged: string)
    requires Transposed(c.admins, c.index) && Merging(plugin) && a != ""
    requires merged == plugin.merge(ValuesOf(Holders(c, plugin.name) - {a}) + Single(v))
    ensures var c' := SetPolicySpec(c, t, userId, a, plugin.name, v, merged, Done, Done).cache;
            Transposed(c'.admins, c'.index) && MergedRight(c', plugin)
  {
    HoldersAfterSet(c, t, userId, a, plugin.name, v, merged);
    var h := Holders(c, plugin.name);
    if v == "" {
      assert ValuesOf(h - {a}) + Single(v) == ValuesOf(h - {a});
    } else {
      ValuesPut(h, a, v);
    }
  }

  // ----- Runs of updates, events, removals and replacements -----

  datatype Call =
    | Update(userId: int, policy: string, admin: string, data: Parcel)
    | Event(userId: int, policy: string, order: seq<string>, data: Parcel)
    | Remove(userId: int, policy: string, admin: string)
    | Replace(userId: int, admin: string, newAdmin: string)

  type Plugins = map<string, Plugin>

  ghost predicate Registered(plugins: Plugins) {
    forall p :: p in plugins ==> plugins[p].name == p && p != ""
  }

  /** For every user the combined value of each policy with a merging plugin is the merge, and every index is exact. */
  ghost predicate AllMergedRight(s: ManagerState, plugins: Plugins) {
    forall u :: CacheMergedRight(CacheOf(s, u), plugins)
  }

  ghost predicate CacheMergedRight(c: Cache, plugins: Plugins) {
    && NoEmptyInner(c.admins) && Transposed(c.admins, c.index)
    && forall p :: p in plugins && Merging(plugins[p]) ==> MergedRight(c, plugins[p])
  }

  /** What the calls of a run must meet: an admin has a name, its policy a plugin, an event reaches the admins holding
      the policy, each once, and the event handler of a merging plugin merges, and a replacement is under a name that
      owns nothing. Plugins that do not merge are called as well. */
  ghost predicate Allowed(s: ManagerState, plugins: Plugins, call: Call) {
    match call
    case Update(u, p, a, data) => p in plugins && a != ""
    case Event(u, p, order, data) =>
      p in plugins && EventsMerge(plugins[p]) && IsOrderOf(order, Holders(CacheOf(s, u), p)) && "" !in order
    case Remove(u, p, a) => p in plugins && a != ""
    case Replace(u, a, b) => b !in CacheOf(s, u).admins
  }

  ghost predicate IsOrderOf(order: seq<string>, values: Items) {
    && (forall a :: a in order <==> a in values)
    && (forall i, j :: 0 <= i < j < |order| ==> order[i] != order[j])
  }

  ghost function CallState(s: ManagerState, plugins: Plugins, call: Call): ManagerState
    requires Allowed(s, plugins, call)
  {
    match call
    case Update(u, p, a, data) => UpdateSpec(s, plugins[p], a, data, u, LOAD_OK, Done, Done).state
    case Event(u, p, order, data) =>
      EventRounds(Loaded(s, u, LOAD_OK), plugins[p], order, Holders(CacheOf(s, u), p), data, u, LOAD_OK, Done, Done)
    case Remove(u, p, a) => RemoveSpec(s, plugins[p], a, u, LOAD_OK, Done, Done).state
    case Replace(u, a, b) => ReplaceAllSpec(s, u, a, b, LOAD_OK, Done).state
  }

  ghost predicate AllowedRun(s: ManagerState, plugins: Plugins, calls: seq<Call>)
    decreases |calls|
  {
    calls == [] || (Allowed(s, plugins, calls[0]) && AllowedRun(CallState(s, plugins, calls[0]), plugins, calls[1..]))
  }

  ghost function RunCalls(s: ManagerState, plugins: Plugins, calls: seq<Call>): ManagerState
    requires AllowedRun(s, plugins, calls)
    decreases |calls|
  {
    if calls == [] then s else RunCalls(CallState(s, plugins, calls[0]), plugins, calls[1..])
  }

  /** A save at one user leaves what every other user has or would load. */
  lemma SetPolicyCaches(s: ManagerState, userId: int, a: string, p: string, v: string, merged: string, u: int)
    ensures var s' := SetPolicyAll(s, userId, a, p, v, merged, LOAD_OK, Done, Done).state;
            CacheOf(s', u) == if u == userId
                              then SetPolicySpec(CacheOf(s, u), s.tables, u, a, p, v, merged, Done, Done).cache
                              else CacheOf(s, u)
  {
    if u != userId { SetPolicyOtherUser(CacheOf(s, userId), s.tables, userId, a, p, v, merged, Done, Done, u); }
  }

  lemma FilledAfterSet(c: Cache, t: Tables, userId: int, a: string, p: string, v: string, merged: string)
    requires NoEmptyInner(c.admins)
    ensures NoEmptyInner(SetPolicySpec(c, t, userId, a, p, v, merged, Done, Done).cache.admins)
  {
    PutDropKeepFilled(c.admins, a, p, v);
  }

  /** A save of one policy leaves the combined value of every other right. */
  lemma OtherMergeKept(c: Cache, t: Tables, userId: int, a: string, p: string, v: string, merged: string, other: Plugin)
    requires Transposed(c.admins, c.index) && a != "" && p != "" && other.name != p && MergedRight(c, other)
    ensures var c' := SetPolicySpec(c, t, userId, a, p, v, merged, Done, Done).cache;
            Transposed(c'.admins, c'.index) && MergedRight(c', other)
  {
    HoldersAfterSet(c, t, userId, a, p, v, merged);
  }

  lemma SaveKeepsCache(c: Cache, t: Tables, plugins: Plugins, userId: int, p: string, a: string, v: string,
                       merged: string)
    requires Registered(plugins) && p in plugins && a != "" && CacheMergedRight(c, plugins)
    requires Merging(plugins[p]) ==> merged == plugins[p].merge(ValuesOf(Holders(c, p) - {a}) + Single(v))
    ensures CacheMergedRight(SetPolicySpec(c, t, userId, a, p, v, merged, Done, Done).cache, plugins)
  {
    var c' := SetPolicySpec(c, t, userId, a, p, v, merged, Done, Done).cache;
    FilledAfterSet(c, t, userId, a, p, v, merged);
    HoldersAfterSet(c, t, userId, a, p, v, merged);
    forall q | q in plugins && Merging(plugins[q]) ensures MergedRight(c', plugins[q]) {
      if q == p { SavedMergeIsRight(c, t, userId, plugins[p], a, v, merged); }
      else { OtherMergeKept(c, t, userId, a, p, v, merged, plugins[q]); }
    }
  }

  lemma SaveKeepsAll(s: ManagerState, plugins: Plugins, userId: int, p: string, a: string, v: string, merged: string)
    requires Registered(plugins) && p in plugins && a != "" && AllMergedRight(s, plugins)
    requires Merging(plugins[p]) ==>
               merged == plugins[p].merge(ValuesOf(Holders(CacheOf(s, userId), p) - {a}) + Single(v))
    ensures AllMergedRight(SetPolicyAll(s, userId, a, p, v, merged, LOAD_OK, Done, Done).state, plugins)
  {
    var s' := SetPolicyAll(s, userId, a, p, v, merged, LOAD_OK, Done, Done).state;
    forall u ensures CacheMergedRight(CacheOf(s', u), plugins) {
      SetPolicyCaches(s, userId, a, p, v, merged, u);
      assert CacheMergedRight(CacheOf(s, u), plugins);
      if u == userId { SaveKeepsCache(CacheOf(s, u), s.tables, plugins, u, p, a, v, merged); }
    }
  }

  lemma LoadedCaches(s: ManagerState, userId: int)
    ensures forall u :: CacheOf(Loaded(s, userId, LOAD_OK), u) == CacheOf(s, u)
  {
  }

  lemma UpdateKeepsAll(s: ManagerState, plugins: Plugins, userId: int, p: string, a: string, data: Parcel)
    requires Registered(plugins) && p in plugins && a != "" && AllMergedRight(s, plugins)
    ensures AllMergedRight(UpdateSpec(s, plugins[p], a, data, userId, LOAD_OK, Done, Done).state, plugins)
  {
    var l := Loaded(s, userId, LOAD_OK);
    LoadedCaches(s, userId);
    assert AllMergedRight(l, plugins) by {
      forall u ensures CacheMergedRight(CacheOf(l, u), plugins) { assert CacheMergedRight(CacheOf(s, u), plugins); }
    }
    var c := l.caches[userId];
    assert c == CacheOf(l, userId);
    if Merging(plugins[p]) { OthersMergeIs(c, plugins[p], a); }
    var h := plugins[p].handle(data, OrEmpty(ReadPolicy(c, a, p)), OthersMerge(c, plugins[p], a));
    if h.ok && plugins[p].needSave && h.isChanged {
      SaveKeepsAll(l, plugins, userId, p, a, h.policyData, h.mergeData);
    }
  }

  lemma EventStepKeepsAll(s: ManagerState, plugins: Plugins, userId: int, p: string, a: string, value: string,
                          data: Parcel)
    requires Registered(plugins) && p in plugins && EventsMerge(plugins[p]) && a != "" && AllMergedRight(s, plugins)
    ensures AllMergedRight(EventStep(s, plugins[p], a, value, data, userId, LOAD_OK, Done, Done), plugins)
  {
    var l := Loaded(s, userId, LOAD_OK);
    LoadedCaches(s, userId);
    assert AllMergedRight(l, plugins) by {
      forall u ensures CacheMergedRight(CacheOf(l, u), plugins) { assert CacheMergedRight(CacheOf(s, u), plugins); }
    }
    var c := l.caches[userId];
    assert c == CacheOf(l, userId);
    if Merging(plugins[p]) { OthersMergeIs(c, plugins[p], a); }
    var e := plugins[p].onEvent(data, value, OthersMerge(c, plugins[p], a));
    if plugins[p].needSave { SaveKeepsAll(l, plugins, userId, p, a, e.policyData, e.mergeData); }
  }

  lemma {:induction false} EventRoundsKeepAll(s: ManagerState, plugins: Plugins, userId: int, p: string,
                                              order: seq<string>, values: Items, data: Parcel)
    requires Registered(plugins) && p in plugins && EventsMerge(plugins[p]) && "" !in order &&
             AllMergedRight(s, plugins)
    requires forall a :: a in order ==> a in values
    ensures AllMergedRight(EventRounds(s, plugins[p], order, values, data, userId, LOAD_OK, Done, Done), plugins)
  {
    if order != [] {
      var n := |order| - 1;
      assert forall a :: a in order[..n] ==> a in order;
      assert order[n] in order;
      EventRoundsKeepAll(s, plugins, userId, p, order[..n], values, data);
      var before := EventRounds(s, plugins[p], order[..n], values, data, userId, LOAD_OK, Done, Done);
      EventStepKeepsAll(before, plugins, userId, p, order[n], values[order[n]], data);
    }
  }

  /** When nobody holds the policy the combined value is cleared. */
  lemma ClearKeepsAll(s: ManagerState, plugins: Plugins, userId: int, p: string)
    requires Registered(plugins) && p in plugins && AllMergedRight(s, plugins) &&
             Holders(CacheOf(s, userId), p) == map[]
    ensures AllMergedRight(SetPolicyAll(s, userId, "", p, "", "", LOAD_OK, Done, Done).state, plugins)
  {
    var s' := SetPolicyAll(s, userId, "", p, "", "", LOAD_OK, Done, Done).state;
    forall u ensures CacheMergedRight(CacheOf(s', u), plugins) {
      SetPolicyCaches(s, userId, "", p, "", "", u);
      assert CacheMergedRight(CacheOf(s, u), plugins);
      if u == userId {
        forall q | q in plugins && Merging(plugins[q]) ensures MergedRight(CacheOf(s', u), plugins[q]) {
          assert MergedRight(CacheOf(s, u), plugins[q]);
        }
      }
    }
  }

  lemma RemoveKeepsAll(s: ManagerState, plugins: Plugins, userId: int, p: string, a: string)
    requires Registered(plugins) && p in plugins && a != "" && AllMergedRight(s, plugins)
    ensures AllMergedRight(RemoveSpec(s, plugins[p], a, userId, LOAD_OK, Done, Done).state, plugins)
  {
    var l := Loaded(s, userId, LOAD_OK);
    LoadedCaches(s, userId);
    assert AllMergedRight(l, plugins) by {
      forall u ensures CacheMergedRight(CacheOf(l, u), plugins) { assert CacheMergedRight(CacheOf(s, u), plugins); }
    }
    var c := l.caches[userId];
    assert c == CacheOf(l, userId) && CacheMergedRight(c, plugins);
    if plugins[p].needSave && Holders(c, p) == map[] {
      ClearKeepsAll(l, plugins, userId, p);
    } else if plugins[p].needSave {
      if Merging(plugins[p]) { OthersMergeIs(c, plugins[p], a); }
      assert ValuesOf(Holders(c, p) - {a}) + Single("") == ValuesOf(Holders(c, p) - {a});
      SaveKeepsAll(l, plugins, userId, p, a, "", OthersMerge(c, plugins[p], a));
    }
  }

  lemma ReplaceKeepsAll(s: ManagerState, plugins: Plugins, userId: int, a: string, b: string)
    requires Registered(plugins) && AllMergedRight(s, plugins) && b !in CacheOf(s, userId).admins
    ensures AllMergedRight(ReplaceAllSpec(s, userId, a, b, LOAD_OK, Done).state, plugins)
  {
    var s' := ReplaceAllSpec(s, userId, a, b, LOAD_OK, Done).state;
    var c := CacheOf(s, userId);
    assert CacheMergedRight(c, plugins);
    forall u ensures CacheMergedRight(CacheOf(s', u), plugins) {
      assert CacheMergedRight(CacheOf(s, u), plugins);
      if u == userId {
        ReplaceKeepsTranspose(c, s.tables, userId, a, b);
        forall q | q in plugins && Merging(plugins[q]) ensures MergedRight(CacheOf(s', u), plugins[q]) {
          assert MergedRight(c, plugins[q]);
          assert Lookup(c.admins, b, q) == Lookup(c.index, q, b);
          ValuesRename(Holders(c, q), a, b);
        }
      } else {
        ReplaceOtherUser(c, s.tables, userId, a, b, Done, u);
      }
    }
  }

  lemma CallKeepsMergedValues(s: ManagerState, plugins: Plugins, call: Call)
    requires Registered(plugins) && Allowed(s, plugins, call) && AllMergedRight(s, plugins)
    ensures AllMergedRight(CallState(s, plugins, call), plugins)
  {
    match call
    case Update(u, p, a, data) => UpdateKeepsAll(s, plugins, u, p, a, data);
    case Event(u, p, order, data) =>
      var l := Loaded(s, u, LOAD_OK);
      LoadedCaches(s, u);
      forall v ensures CacheMergedRight(CacheOf(l, v), plugins) { assert CacheMergedRight(CacheOf(s, v), plugins); }
      EventRoundsKeepAll(l, plugins, u, p, order, Holders(CacheOf(s, u), p), data);
    case Remove(u, p, a) => RemoveKeepsAll(s, plugins, u, p, a);
    case Replace(u, a, b) => ReplaceKeepsAll(s, plugins, u, a, b);
  }

  /** The combined-value invariant: along every run, for every user and every policy whose plugin merges, the combined
      value is the merge over all admins holding the policy, and is absent exactly when that merge is empty. What the
      plugins of other policies save does not matter. */
  lemma {:induction false} RunKeepsMergedValues(s: ManagerState, plugins: Plugins, calls: seq<Call>)
    requires Registered(plugins) && AllMergedRight(s, plugins) && AllowedRun(s, plugins, calls)
    ensures AllMergedRight(RunCalls(s, plugins, calls), plugins)
    decreases |calls|
  {
    if calls != [] {
      CallKeepsMergedValues(s, plugins, calls[0]);
      RunKeepsMergedValues(CallState(s, plugins, calls[0]), plugins, calls[1..]);
    }
  }

  /** A round of dispatch whose handler leaves its arguments alone keeps the combined value right exactly when the
      admin's own value does not matter to the merge: the value saved as combined is the merge of the others only. */
  lemma IdleEventKeepsMergedIff(s: ManagerState, plugin: Plugin, a: string, data: Parcel, userId: int)
    requires Transposed(CacheOf(s, userId).admins, CacheOf(s, userId).index)
    requires plugin.needSave && plugin.name != "" && plugin.merge(multiset{}) == "" && a != ""
    requires var h := Holders(CacheOf(s, userId), plugin.name); a in h && h[a] != ""
    requires var h, others := Holders(CacheOf(s, userId), plugin.name), OthersMerge(CacheOf(s, userId), plugin, a);
             plugin.onEvent(data, h[a], others) == EventResult(h[a], others)
    ensures var h := Holders(CacheOf(s, userId), plugin.name);
            var s' := EventStep(s, plugin, a, h[a], data, userId, LOAD_OK, Done, Done);
            && Holders(CacheOf(s', userId), plugin.name) == h
            && Find(CacheOf(s', userId).combined, plugin.name) == Present(plugin.merge(ValuesOf(h - {a})))
            && (MergedRight(CacheOf(s', userId), plugin) <==>
                plugin.merge(ValuesOf(h - {a})) == plugin.merge(ValuesOf(h)))
  {
    var l := Loaded(s, userId, LOAD_OK);
    LoadedCaches(s, userId);
    var c := l.caches[userId];
    assert c == CacheOf(s, userId);
    var h := Holders(c, plugin.name);
    SetPolicyCaches(l, userId, a, plugin.name, h[a], OthersMerge(c, plugin, a), userId);
    HoldersAfterSet(c, l.tables, userId, a, plugin.name, h[a], OthersMerge(c, plugin, a));
    assert h[a := h[a]] == h;
    if h - {a} == map[] { assert ValuesOf(h - {a}) == multiset{}; }
  }

  // ----- The auto-start list when some bundle is removed from the device -----

  datatype AutoStartApp = AutoStartApp(bundleName: string, abilityName: string, disallowModify: bool,
                                       isHiddenStart: bool)

  /** The serializer and the merge; `drop` is what the event handler makes of a list that names the removed bundle. */
  datatype AppLists = AppLists(
    encode: seq<AutoStartApp> -> string,
    decode: string -> seq<AutoStartApp>,
    merge: multiset<string> -> string,
    drop: (string, string, string) -> EventResult)

  /** Lists are read back, and a list with an app in it is no empty text, merged or not. */
  ghost predicate ReadsBack(lists: AppLists) {
    && lists.merge(multiset{}) == ""
    && forall apps :: lists.decode(lists.encode(apps)) == apps &&
                      (apps != [] ==> lists.encode(apps) != "" && lists.merge(multiset{lists.encode(apps)}) != "")
  }

  predicate NamesBundle(apps: seq<AutoStartApp>, bundle: string) {
    exists i :: 0 <= i < |apps| && apps[i].bundleName == bundle
  }

  /** `OnPluginEvent` returns at once when the admin's list does not name the removed bundle. */
  function AutoStartEvent(lists: AppLists, bundle: string, own: string, others: string): EventResult {
    if NamesBundle(lists.decode(own), bundle) then lists.drop(bundle, own, others) else EventResult(own, others)
  }

  function AutoStartPlugin(code: int, name: string, lists: AppLists,
                           handle: (Parcel, string, string) -> Handled): Plugin
  {
    Plugin(code, name, true, handle, (bundle, own, others) => AutoStartEvent(lists, bundle, own, others), lists.merge)
  }

  const NO_STORE := ManagerState(Tables([], []), map[])

  /** The store once one administrator's list is saved, alone and merged. */
  ghost function ListSaved(plugin: Plugin, a: string, list: string, userId: int): ManagerState {
    SetPolicyAll(NO_STORE, userId, a, plugin.name, list, plugin.merge(multiset{list}), LOAD_OK, Done, Done).state
  }

  lemma ListSavedIs(plugin: Plugin, a: string, list: string, userId: int)
    requires plugin.name != "" && a != "" && list != ""
    ensures var c := CacheOf(ListSaved(plugin, a, list, userId), userId);
            Transposed(c.admins, c.index) && Holders(c, plugin.name) == map[a := list] && MergedRight(c, plugin)
    ensures ValuesOf(map[a := list]) == multiset{list}
  {
    var merged := plugin.merge(multiset{list});
    var h: Items := map[a := list];
    assert CacheOf(NO_STORE, userId) == EMPTY_CACHE;
    SetPolicyCaches(NO_STORE, userId, a, plugin.name, list, merged, userId);
    HoldersAfterSet(EMPTY_CACHE, NO_STORE.tables, userId, a, plugin.name, list, merged);
    assert Holders(EMPTY_CACHE, plugin.name) == map[] && map[][a := list] == h;
    ValuesWithout(h, a);
    assert h - {a} == map[];
    assert ValuesOf(h) == multiset{list} &&
           Holders(CacheOf(ListSaved(plugin, a, list, userId), userId), plugin.name) == h;
  }

  /** One administrator has a list saved; then a bundle that is not in it is removed from the device: the combined value
      is gone, while the administrator still holds the list. */
  lemma ForeignRemovalLosesValue(lists: AppLists, code: int, name: string, handle: (Parcel, string, string) -> Handled,
                                 a: string, apps: seq<AutoStartApp>, bundle: string, userId: int)
    requires ReadsBack(lists) && name != "" && a != "" && apps != [] && !NamesBundle(apps, bundle)
    ensures var plugin, list := AutoStartPlugin(code, name, lists, handle), lists.encode(apps);
            var saved := ListSaved(plugin, a, list, userId);
            var after := CacheOf(EventStep(saved, plugin, a, list, bundle, userId, LOAD_OK, Done, Done), userId);
            && Holders(CacheOf(saved, userId), name) == Holders(after, name) == map[a := list]
            && MergedRight(CacheOf(saved, userId), plugin)
            && Find(after.combined, name) == None && !MergedRight(after, plugin)
  {
    var plugin, list := AutoStartPlugin(code, name, lists, handle), lists.encode(apps);
    var saved := ListSaved(plugin, a, list, userId);
    ListSavedIs(plugin, a, list, userId);
    var h: Items := map[a := list];
    assert h - {a} == map[] && ValuesOf(h - {a}) == multiset{};
    IdleEventKeepsMergedIff(saved, plugin, a, bundle, userId);
    assert Holders(CacheOf(saved, userId), name)[a] == list;
    assert plugin.merge(ValuesOf(h)) != "";
  }

  // ----- A plugin of the service that meets the contract -----

  const TRUE_TEXT := "true"

  function BoolMerge(values: multiset<string>): string {
    if TRUE_TEXT in values then TRUE_TEXT else ""
  }

  function BoolText(b: bool): string {
    if b then TRUE_TEXT else ""
  }

  /** `BasicBoolPlugin::OnHandlePolicy` with `OnSetPolicy`: nothing is applied while another admin has switched it on.
      `applies` says whether the device could be switched. */
  function BoolHandle(applies: bool -> bool, data: Parcel, own: string, others: string): Handled {
    var wanted := data == TRUE_TEXT;
    if others == TRUE_TEXT then Handled(true, BoolText(wanted), TRUE_TEXT, own != BoolText(wanted))
    else if !applies(wanted) then Handled(false, own, others, false)
    else Handled(true, BoolText(wanted), BoolText(wanted), own != BoolText(wanted))
  }

  function BasicBoolPlugin(code: int, name: string, applies: bool -> bool): Plugin {
    Plugin(code, name, true, (data, own, others) => BoolHandle(applies, data, own, others),
           (data, value, others) => EventResult(value, others), values => BoolMerge(values))
  }

  /** Every switch of the service meets the contract, whatever the device answers. */
  lemma BasicBoolIsMerging(code: int, name: string, applies: bool -> bool)
    requires name != ""
    ensures Merging(BasicBoolPlugin(code, name, applies))
  {
    forall data, own, others: multiset<string>
      ensures var h := BoolHandle(applies, data, own, BoolMerge(others));
              h.ok && h.isChanged ==> h.mergeData == BoolMerge(others + Single(h.policyData))
    {
      assert TRUE_TEXT in Single(TRUE_TEXT);
    }
  }
}
