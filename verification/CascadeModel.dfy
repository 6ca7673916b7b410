/** What removing an administrator with its policies and its children does to policy rows and roster, as relations
    between the states before and after, whatever the storage does and in whatever order the policies come. */
module CascadeModel {
  import opened PolicyModel
  import opened StoreLaws
  import opened ManagerModel
  import opened PipelineModel
  import opened AdminModel
  import opened LifecycleModel
  import LifecycleSafety
  import RosterSync

  // ----- The policy store -----

  /** The caches mirror the rows, the index has every holder, and nothing is stored under an empty name. */
  ghost predicate StoreGood(s: ManagerState) {
    AllMirror(s) && forall u :: Covers(CacheOf(s, u))
  }

  ghost predicate Covers(c: Cache) {
    && (forall a, p :: Lookup(c.admins, a, p).Some? ==> Lookup(c.index, p, a).Some?)
    && (forall p :: Lookup(c.admins, "", p) == None)
  }

  lemma WriteKeepsCovers(c: Cache, t: Tables, u: int, a: string, p: string, v: string, io: Outcome)
    requires Covers(c) && a != ""
    ensures Covers(WriteAdmin(c, t, u, a, p, v, io).cache)
  {
    var c' := WriteAdmin(c, t, u, a, p, v, io).cache;
    forall x, q
      ensures Lookup(c'.admins, x, q).Some? ==> Lookup(c'.index, q, x).Some?
      ensures x == "" ==> Lookup(c'.admins, x, q) == None
    {
      LookupPut(c.admins, a, p, v, x, q);
      LookupPut(c.index, p, a, v, q, x);
      LookupDrop(c.admins, a, p, x, q);
      LookupDrop(c.index, p, a, q, x);
    }
  }

  lemma SetPolicyKeepsGood(s: ManagerState, userId: int, a: string, p: string, v: string, merged: string,
                           combinedIo: Outcome, adminIo: Outcome)
    requires StoreGood(s)
    ensures StoreGood(SetPolicyAll(s, userId, a, p, v, merged, LOAD_OK, combinedIo, adminIo).state)
  {
    var s' := SetPolicyAll(s, userId, a, p, v, merged, LOAD_OK, combinedIo, adminIo).state;
    SetPolicyRefinesMap(s, userId, a, p, v, merged, combinedIo, adminIo);
    forall u ensures Covers(CacheOf(s', u)) {
      SetPolicyKeepsMirrors(s, userId, a, p, v, merged, combinedIo, adminIo, u);
      assert Covers(CacheOf(s, u));
      if u == userId && p != "" {
        var first := WriteCombined(CacheOf(s, u), s.tables, u, p, merged, combinedIo);
        assert Covers(first.cache);
        if a != "" { WriteKeepsCovers(first.cache, first.tables, u, a, p, v, adminIo); }
      }
    }
  }

  lemma LoadedGood(s: ManagerState, userId: int)
    requires StoreGood(s)
    ensures StoreGood(Loaded(s, userId, LOAD_OK))
    ensures forall u :: CacheOf(Loaded(s, userId, LOAD_OK), u) == CacheOf(s, u)
  {
    LoadedCaches(s, userId);
    var l := Loaded(s, userId, LOAD_OK);
    forall u ensures Mirrors(CacheOf(l, u), l.tables, u) && Covers(CacheOf(l, u)) {
      assert Mirrors(CacheOf(s, u), s.tables, u) && Covers(CacheOf(s, u));
    }
  }

  // ----- First loads that fail -----

  /** The user's manager is loaded already, or is loaded right. */
  predicate LoadsRight(s: ManagerState, user: int, load: LoadIo) {
    user in s.caches || load == LOAD_OK
  }

  /** The policies of an administrator that a removal finds. */
  function Found(s: ManagerState, user: int, admin: string, load: LoadIo): Items {
    Under(Loaded(s, user, load).caches[user].admins, admin)
  }

  /** A removal finds what the administrator has stored exactly when the user's manager is loaded already, the query of
      its first load succeeds, or there is nothing to find. */
  lemma RemovalFindsIff(s: ManagerState, user: int, admin: string, load: LoadIo)
    requires StoreGood(s)
    ensures Found(s, user, admin, load) == Under(CacheOf(s, user).admins, admin) <==>
            user in s.caches || load.admin == Done || forall p :: Value(s, user, admin, p) == None
  {
    assert Mirrors(CacheOf(s, user), s.tables, user);
    var held := Under(CacheOf(s, user).admins, admin);
    if user !in s.caches && load.admin != Done {
      assert Found(s, user, admin, load) == map[];
      forall p ensures p in held <==> Value(s, user, admin, p).Some? {}
      if forall p :: Value(s, user, admin, p) == None { assert held == map[]; }
    }
  }

  /** What is found has its plugin when what is stored has. */
  lemma PluggedFound(s: ManagerState, user: int, admin: string, load: LoadIo, plugins: Plugins)
    requires StoreGood(s) && AllPlugged(s, {admin}, plugins) && (LoadsRight(s, user, load) || load.admin != Done)
    ensures Found(s, user, admin, load).Keys <= plugins.Keys
  {
    forall q | q in Found(s, user, admin, load) ensures q in plugins {
      if LoadsRight(s, user, load) { assert Value(s, user, admin, q).Some?; }
    }
  }

  /** What such a removal misses stays in the table, and the next start brings it back. */
  lemma MissedComesBack(s: ManagerState, user: int, admin: string, load: LoadIo, p: string, v: string)
    requires StoreGood(s) && !LoadsRight(s, user, load) && load.admin != Done && Value(s, user, admin, p) == Some(v)
    ensures var s' := Loaded(s, user, load);
            && Value(s', user, admin, p) == None && AdminRow(user, admin, p, v) in s'.tables.adminRows
            && Lookup(LoadCache(s'.tables, user, LOAD_OK).admins, admin, p) == Some(v)
  {
    assert Mirrors(CacheOf(s, user), s.tables, user);
  }

  /** Values are only dropped, and only values of these administrators under policies that their plugins save. */
  ghost predicate OnlyDropped(s: ManagerState, s': ManagerState, whom: set<string>, plugins: Plugins) {
    forall u, x, q :: DroppedOrKept(s, s', whom, plugins, u, x, q)
  }

  ghost predicate DroppedOrKept(s: ManagerState, s': ManagerState, whom: set<string>, plugins: Plugins,
                                u: int, x: string, q: string)
  {
    || Value(s', u, x, q) == Value(s, u, x, q)
    || (x in whom && Saves(plugins, q) && Value(s', u, x, q) == None)
  }

  predicate Saves(plugins: Plugins, policy: string) {
    policy in plugins && plugins[policy].needSave
  }

  /** Every policy these administrators have stored has its plugin. */
  ghost predicate AllPlugged(s: ManagerState, whom: set<string>, plugins: Plugins) {
    forall u, x, q :: x in whom && Value(s, u, x, q).Some? ==> q in plugins
  }

  lemma PluggedStays(s: ManagerState, s': ManagerState, whom: set<string>, dropped: set<string>, plugins: Plugins)
    requires AllPlugged(s, whom, plugins) && OnlyDropped(s, s', dropped, plugins)
    ensures AllPlugged(s', whom, plugins)
  {
    forall u, x, q | x in whom && Value(s', u, x, q).Some? ensures q in plugins {
      assert DroppedOrKept(s, s', dropped, plugins, u, x, q);
    }
  }

  /** The administrator's only values left under the user are of policies that their plugins do not save. */
  ghost predicate OnlyUnsavedLeft(s: ManagerState, user: int, admin: string, plugins: Plugins) {
    forall q :: Value(s, user, admin, q).Some? ==> q in plugins && !plugins[q].needSave
  }

  lemma DroppedTrans(s: ManagerState, t: ManagerState, r: ManagerState, whom: set<string>, whom': set<string>,
                     plugins: Plugins)
    requires OnlyDropped(s, t, whom, plugins) && OnlyDropped(t, r, whom', plugins) && whom <= whom'
    ensures OnlyDropped(s, r, whom', plugins)
  {
    forall u, x, q ensures DroppedOrKept(s, r, whom', plugins, u, x, q) {
      assert DroppedOrKept(s, t, whom, plugins, u, x, q);
      assert DroppedOrKept(t, r, whom', plugins, u, x, q);
    }
  }

  lemma DroppedStays(s: ManagerState, s': ManagerState, whom: set<string>, user: int, admin: string, plugins: Plugins)
    requires OnlyDropped(s, s', whom, plugins) && OnlyUnsavedLeft(s, user, admin, plugins)
    ensures OnlyUnsavedLeft(s', user, admin, plugins)
  {
    forall q | Value(s', user, admin, q).Some? ensures q in plugins && !plugins[q].needSave {
      assert DroppedOrKept(s, s', whom, plugins, user, admin, q);
    }
  }

  lemma SaveDrops(l: ManagerState, user: int, a: string, p: string, merged: string, combinedIo: Outcome,
                  adminIo: Outcome, plugins: Plugins)
    requires StoreGood(l) && p != "" && user in l.caches && Saves(plugins, p)
    ensures var r := SetPolicyAll(l, user, a, p, "", merged, LOAD_OK, combinedIo, adminIo);
            && StoreGood(r.state) && r.state.caches.Keys == l.caches.Keys
            && OnlyDropped(l, r.state, {a}, plugins)
            && (a == "" ==> OnlyDropped(l, r.state, {}, plugins))
            && (r.err == ErrOk && a != "" ==> Value(r.state, user, a, p) == None)
  {
    SetPolicyKeepsGood(l, user, a, p, "", merged, combinedIo, adminIo);
    SetPolicyRefinesMap(l, user, a, p, "", merged, combinedIo, adminIo);
  }

  /** One administrator's value of one policy is gone, or nothing happened to the values; a policy that its plugin does
      not save keeps its value, and the removal succeeds all the same. */
  lemma RemoveItemEffect(s: ManagerState, plugins: Plugins, p: string, admin: string, user: int, combinedIo: Outcome,
                         adminIo: Outcome)
    requires StoreGood(s) && NamedRight(plugins) && p in plugins
    ensures var r := RemoveSpec(s, plugins[p], admin, user, LOAD_OK, combinedIo, adminIo);
            && StoreGood(r.state) && OnlyDropped(s, r.state, {admin}, plugins)
            && r.state.caches.Keys == s.caches.Keys + {user}
            && (r.ok && plugins[p].needSave ==> Value(r.state, user, admin, p) == None)
            && (!plugins[p].needSave ==> r.ok && OnlyDropped(s, r.state, {}, plugins))
            && (combinedIo == Done && adminIo == Done ==> r.ok)
  {
    var plugin := plugins[p];
    var l := Loaded(s, user, LOAD_OK);
    LoadedGood(s, user);
    assert OnlyDropped(s, l, {}, plugins);
    var c := l.caches[user];
    assert c == CacheOf(l, user) && Covers(c);
    var r := RemoveSpec(s, plugin, admin, user, LOAD_OK, combinedIo, adminIo);
    if !plugin.needSave {
      assert r.state == l;
      DroppedWiden(s, l, {}, {admin}, plugins);
    } else if Holders(c, p) == map[] {
      NobodyHolds(c, p, admin);
      SaveDrops(l, user, "", p, "", combinedIo, adminIo, plugins);
      DroppedTrans(s, l, r.state, {}, {}, plugins);
      DroppedWiden(s, r.state, {}, {admin}, plugins);
      assert DroppedOrKept(l, r.state, {}, plugins, user, admin, p);
    } else {
      SaveDrops(l, user, admin, p, OthersMerge(c, plugin, admin), combinedIo, adminIo, plugins);
      DroppedTrans(s, l, r.state, {}, {admin}, plugins);
      assert Lookup(c.admins, "", p) == None;
      if admin == "" { assert DroppedOrKept(l, r.state, {}, plugins, user, admin, p); }
    }
  }

  lemma NobodyHolds(c: Cache, policy: string, admin: string)
    requires Covers(c) && Holders(c, policy) == map[]
    ensures Lookup(c.admins, admin, policy) == None
  {
  }

  // ----- Many policies, users and administrators -----

  /** The state of the store moved from `s` to `s'` by removals of values of `whom`. */
  ghost predicate StoreMoved(s: ManagerState, s': ManagerState, whom: set<string>, plugins: Plugins) {
    StoreGood(s') && OnlyDropped(s, s', whom, plugins) && s.caches.Keys <= s'.caches.Keys
  }

  lemma StoreMovedTrans(s: ManagerState, t: ManagerState, r: ManagerState, whom: set<string>, whom': set<string>,
                        plugins: Plugins)
    requires StoreMoved(s, t, whom, plugins) && StoreMoved(t, r, whom', plugins) && whom <= whom'
    ensures StoreMoved(s, r, whom', plugins)
  {
    DroppedTrans(s, t, r, whom, whom', plugins);
  }

  /** Every plugin found by name has the name. */
  ghost predicate NamedRight(plugins: Plugins) {
    forall p :: p in plugins ==> plugins[p].name == p && p != ""
  }

  // ----- The roster -----

  function FilterOut(list: seq<AdminInfo>, whom: set<string>): seq<AdminInfo> {
    if list == [] then []
    else if list[|list| - 1].packageName in whom then FilterOut(list[..|list| - 1], whom)
    else FilterOut(list[..|list| - 1], whom) + [list[|list| - 1]]
  }

  ghost predicate NamesIn(dels: seq<(int, string)>, whom: set<string>) {
    forall i :: 0 <= i < |dels| ==> dels[i].1 in whom
  }

  /** The roster moved by deletions of `whom` only. */
  ghost predicate RosterMoved(r: Roster, r': Roster, dels: seq<(int, string)>, whom: set<string>) {
    r' == DeleteAllIn(r, dels) && NamesIn(dels, whom)
  }

  lemma {:induction false} DeleteAllAppend(r: Roster, a: seq<(int, string)>, b: seq<(int, string)>)
    ensures DeleteAllIn(r, a + b) == DeleteAllIn(DeleteAllIn(r, a), b)
  {
    if b == [] {
      assert a + b == a;
    } else {
      DeleteAllAppend(r, a, b[..|b| - 1]);
      assert (a + b)[..|a + b| - 1] == a + b[..|b| - 1];
    }
  }

  lemma RosterMovedTrans(r: Roster, t: Roster, q: Roster, a: seq<(int, string)>, b: seq<(int, string)>,
                         whom: set<string>, whom': set<string>)
    requires RosterMoved(r, t, a, whom) && RosterMoved(t, q, b, whom') && whom <= whom'
    ensures RosterMoved(r, q, a + b, whom')
  {
    DeleteAllAppend(r, a, b);
  }

  lemma {:induction false} WithoutFilter(list: seq<AdminInfo>, p: string, whom: set<string>)
    requires p in whom
    ensures FilterOut(Without(list, p), whom) == FilterOut(list, whom)
  {
    if list != [] {
      var init, last := list[..|list| - 1], list[|list| - 1];
      WithoutFilter(init, p, whom);
      var kept := Without(init, p);
      assert (kept + [last])[..|kept|] == kept;
    }
  }

  /** The entries of every other package stay, in their order. */
  lemma {:induction false} OthersKept(admins: Admins, dels: seq<(int, string)>, whom: set<string>, u: int)
    requires NamesIn(dels, whom)
    ensures FilterOut(ListOf(DeleteAll(admins, dels), u), whom) == FilterOut(ListOf(admins, u), whom)
  {
    if dels != [] {
      var init, last := dels[..|dels| - 1], dels[|dels| - 1];
      OthersKept(admins, init, whom, u);
      var before := DeleteAll(admins, init);
      WithoutFilter(ListOf(before, last.0), last.1, whom);
    }
  }

  /** And so do their rows in the administrator table. */
  lemma {:induction false} OtherRowsKept(rows: seq<Row>, dels: seq<(int, string)>, whom: set<string>, u: int)
    requires NamesIn(dels, whom)
    ensures FilterOut(RowsOf(DeleteAllRows(rows, dels), u), whom) == FilterOut(RowsOf(rows, u), whom)
  {
    if dels != [] {
      var init, last := dels[..|dels| - 1], dels[|dels| - 1];
      assert forall i :: 0 <= i < |init| ==> init[i] == dels[i];
      OtherRowsKept(rows, init, whom, u);
      RosterSync.RowsOfDelete(DeleteAllRows(rows, init), last.0, last.1, u);
      WithoutFilter(RowsOf(DeleteAllRows(rows, init), u), last.1, whom);
    }
  }

  predicate Absent(admins: Admins, user: int, admin: string) {
    !Named(ListOf(admins, user), admin)
  }

  lemma AbsentStays(admins: Admins, dels: seq<(int, string)>, user: int, admin: string)
    requires Absent(admins, user, admin)
    ensures Absent(DeleteAll(admins, dels), user, admin)
  {
    LifecycleSafety.SublistOf(admins, dels, user);
    var list := ListOf(DeleteAll(admins, dels), user);
    forall i | 0 <= i < |list| ensures list[i].packageName != admin {
      assert list[i] in list;
      var k :| 0 <= k < |ListOf(admins, user)| && ListOf(admins, user)[k] == list[i];
    }
  }

  lemma DeletedAbsent(r: Roster, user: int, admin: string, io: Outcome)
    ensures var d := DeleteAdminSpec(r, user, admin, io);
            && (d.err == AdminOk || d.err == UnknownAdmin ==> Absent(d.roster.admins, user, admin))
            && RosterMoved(r, d.roster, if d.err == AdminOk then [(user, admin)] else [], {admin})
  {
    var d := DeleteAdminSpec(r, user, admin, io);
    if d.err != AdminOk {
      assert DeleteAllIn(r, []) == r;
      assert RosterMoved(r, d.roster, [], {admin});
    } else {
      assert [(user, admin)][..0] == [];
      assert DeleteAll(r.admins, [(user, admin)]) == DeleteByUser(r.admins, user, admin);
      assert DeleteAllRows(r.rows, [(user, admin)]) == DeleteRows(r.rows, user, admin);
      assert RosterMoved(r, d.roster, [(user, admin)], {admin});
      LifecycleSafety.WithoutIs(r.admins[user], admin);
      var list := ListOf(d.roster.admins, user);
      forall i | 0 <= i < |list| ensures list[i].packageName != admin { assert list[i] in list; }
    }
  }

  // ----- The whole cascade -----

  /** The super administrator and its sub and virtual administrators. */
  function Victims(admins: Admins, name: string): set<string> {
    set x | x in [name] + ChildrenOf(Copies(ListOf(admins, DEFAULT_USER_ID)), name)
  }

  lemma {:induction false} ChildIsListed(list: seq<AdminInfo>, name: string, i: nat)
    requires i < |list| && IsChildOf(list[i], name)
    ensures list[i].packageName in ChildrenOf(Copies(list), name)
  {
    var n := |list| - 1;
    if i < n { ChildIsListed(list[..n], name, i); }
    match CreateAdmin(list[n])
    case None =>
    case Some(copy) => assert (Copies(list[..n]) + [copy])[..|Copies(list[..n])|] == Copies(list[..n]);
  }

  /** No policy row of any user belongs to these administrators. */
  ghost predicate NoRowsOf(s: ManagerState, whom: set<string>) {
    forall row: AdminRow :: row in s.tables.adminRows ==> row.admin !in whom
  }

  /** None of them, and no child of `name`, is left under the default user. */
  ghost predicate NobodyLeft(admins: Admins, whom: set<string>, name: string) {
    forall e :: e in ListOf(admins, DEFAULT_USER_ID) ==> e.packageName !in whom && !IsChildOf(e, name)
  }

  /** What these administrators have stored under registered policies is saved by the plugins. */
  ghost predicate StoredSaves(s: ManagerState, whom: set<string>, plugins: Plugins) {
    forall u, x, q :: x in whom && Value(s, u, x, q).Some? && q in plugins ==> plugins[q].needSave
  }

  /** Every value these administrators have left is of a policy that its plugin does not save, and no row of theirs is
      left exactly when they had no such value to begin with. */
  ghost predicate RowsCleared(s: ManagerState, s': ManagerState, whom: set<string>, plugins: Plugins) {
    && (forall u, x :: x in whom ==> OnlyUnsavedLeft(s', u, x, plugins))
    && (NoRowsOf(s', whom) <==> StoredSaves(s, whom, plugins))
  }

  lemma RowIsValue(s: ManagerState, u: int, x: string, q: string, v: string)
    requires StoreGood(s)
    ensures AdminRow(u, x, q, v) in s.tables.adminRows <==> Value(s, u, x, q) == Some(v)
  {
    assert Mirrors(CacheOf(s, u), s.tables, u);
  }

  /** Cascade completeness for the rows: having nothing but unsaved values under the managed users and the default one
      is having nothing else at all. */
  lemma NoRowsLeft(s: ManagerState, s': ManagerState, whom: set<string>, plugins: Plugins)
    requires StoreGood(s) && StoreMoved(s, s', whom, plugins) && UsersCovered(s)
    requires forall u, x :: (u in PolicyUserIds(s) || u == DEFAULT_USER_ID) && x in whom ==>
               OnlyUnsavedLeft(s', u, x, plugins)
    ensures RowsCleared(s, s', whom, plugins)
  {
    forall u, x | x in whom ensures OnlyUnsavedLeft(s', u, x, plugins) {
      forall q | Value(s', u, x, q).Some? ensures q in plugins && !plugins[q].needSave {
        LeftWasThere(s, s', whom, plugins, u, x, q);
        RowIsValue(s, u, x, q, Value(s, u, x, q).value);
        assert u == DEFAULT_USER_ID || u in PolicyUserIds(s);
        assert OnlyUnsavedLeft(s', u, x, plugins);
      }
    }
    if StoredSaves(s, whom, plugins) { AllRowsGone(s, s', whom, plugins); }
    if NoRowsOf(s', whom) { NothingUnsaved(s, s', whom, plugins); }
  }

  lemma LeftWasThere(s: ManagerState, s': ManagerState, whom: set<string>, plugins: Plugins, u: int, x: string,
                     q: string)
    requires OnlyDropped(s, s', whom, plugins) && Value(s', u, x, q).Some?
    ensures Value(s, u, x, q) == Value(s', u, x, q)
  {
    assert DroppedOrKept(s, s', whom, plugins, u, x, q);
  }

  lemma AllRowsGone(s: ManagerState, s': ManagerState, whom: set<string>, plugins: Plugins)
    requires StoreGood(s') && OnlyDropped(s, s', whom, plugins) && StoredSaves(s, whom, plugins)
    requires forall u, x :: x in whom ==> OnlyUnsavedLeft(s', u, x, plugins)
    ensures NoRowsOf(s', whom)
  {
    forall row: AdminRow | row in s'.tables.adminRows ensures row.admin !in whom {
      RowIsValue(s', row.userId, row.admin, row.policy, row.value);
      LeftWasThere(s, s', whom, plugins, row.userId, row.admin, row.policy);
      assert row.admin in whom ==> OnlyUnsavedLeft(s', row.userId, row.admin, plugins);
    }
  }

  lemma NothingUnsaved(s: ManagerState, s': ManagerState, whom: set<string>, plugins: Plugins)
    requires StoreGood(s') && OnlyDropped(s, s', whom, plugins) && NoRowsOf(s', whom)
    ensures StoredSaves(s, whom, plugins)
  {
    forall u, x, q | x in whom && Value(s, u, x, q).Some? && q in plugins ensures plugins[q].needSave {
      assert DroppedOrKept(s, s', whom, plugins, u, x, q);
      if Value(s', u, x, q).Some? { RowIsValue(s', u, x, q, Value(s', u, x, q).value); }
    }
  }

  // ----- Only policies that are saved are stored -----

  /** One call of the pipeline with the outcomes of its row calls; a policy without a plugin is refused, and an event
      reaches administrators that hold the policy. */
  datatype StoreCall = StoreCall(call: Call, combinedIo: Outcome, adminIo: Outcome)

  ghost function AfterCall(s: ManagerState, plugins: Plugins, c: StoreCall): ManagerState {
    match c.call
    case Update(u, p, a, data) =>
      if p in plugins then UpdateSpec(s, plugins[p], a, data, u, LOAD_OK, c.combinedIo, c.adminIo).state else s
    case Event(u, p, order, data) =>
      if p in plugins && forall a :: a in order ==> a in Holders(CacheOf(s, u), p)
      then EventRounds(Loaded(s, u, LOAD_OK), plugins[p], order, Holders(CacheOf(s, u), p), data, u, LOAD_OK,
                       c.combinedIo, c.adminIo)
      else s
    case Remove(u, p, a) =>
      if p in plugins then RemoveSpec(s, plugins[p], a, u, LOAD_OK, c.combinedIo, c.adminIo).state else s
    case Replace(u, a, b) => ReplaceAllSpec(s, u, a, b, LOAD_OK, c.adminIo).state
  }

  ghost function AfterCalls(s: ManagerState, plugins: Plugins, calls: seq<StoreCall>): ManagerState {
    if calls == [] then s else AfterCall(AfterCalls(s, plugins, calls[..|calls| - 1]), plugins, calls[|calls| - 1])
  }

  /** Whatever is stored, by whomever, is of a policy that its plugin saves. */
  ghost predicate OnlySavedStored(s: ManagerState, plugins: Plugins) {
    forall u, x, q :: Value(s, u, x, q).Some? ==> Saves(plugins, q)
  }

  lemma LoadedValues(s: ManagerState, userId: int, plugins: Plugins)
    requires OnlySavedStored(s, plugins)
    ensures OnlySavedStored(Loaded(s, userId, LOAD_OK), plugins)
  {
    LoadedCaches(s, userId);
    forall u, x, q | Value(Loaded(s, userId, LOAD_OK), u, x, q).Some? ensures Saves(plugins, q) {
      assert Value(s, u, x, q).Some?;
    }
  }

  lemma SavedLookup(c: Cache, t: Tables, u: int, a: string, p: string, v: string, merged: string, combinedIo: Outcome,
                    adminIo: Outcome, x: string, q: string)
    ensures Lookup(SetPolicySpec(c, t, u, a, p, v, merged, combinedIo, adminIo).cache.admins, x, q).Some? ==>
            Lookup(c.admins, x, q).Some? || (a != "" && q == p)
  {
    var first := WriteCombined(c, t, u, p, merged, combinedIo);
    assert first.cache.admins == c.admins;
    LookupPut(c.admins, a, p, v, x, q);
    LookupDrop(c.admins, a, p, x, q);
  }

  lemma CachesAfterSave(s: ManagerState, userId: int, a: string, p: string, v: string, merged: string,
                        combinedIo: Outcome, adminIo: Outcome, u: int)
    ensures var s' := SetPolicyAll(s, userId, a, p, v, merged, LOAD_OK, combinedIo, adminIo).state;
            CacheOf(s', u) ==
            if u == userId
            then SetPolicySpec(CacheOf(s, u), s.tables, u, a, p, v, merged, combinedIo, adminIo).cache
            else CacheOf(s, u)
  {
    if u != userId {
      SetPolicyOtherUser(CacheOf(s, userId), s.tables, userId, a, p, v, merged, combinedIo, adminIo, u);
    }
  }

  /** A save adds at most the entry it names. */
  lemma SavedEntry(s: ManagerState, userId: int, a: string, p: string, v: string, merged: string, combinedIo: Outcome,
                   adminIo: Outcome, u: int, x: string, q: string)
    ensures var s' := SetPolicyAll(s, userId, a, p, v, merged, LOAD_OK, combinedIo, adminIo).state;
            Value(s', u, x, q).Some? ==> Value(s, u, x, q).Some? || (u == userId && a != "" && q == p)
  {
    CachesAfterSave(s, userId, a, p, v, merged, combinedIo, adminIo, u);
    if u == userId { SavedLookup(CacheOf(s, u), s.tables, u, a, p, v, merged, combinedIo, adminIo, x, q); }
  }

  lemma SaveStoresSaved(s: ManagerState, plugins: Plugins, userId: int, a: string, p: string, v: string, merged: string,
                        combinedIo: Outcome, adminIo: Outcome)
    requires OnlySavedStored(s, plugins) && (a == "" || Saves(plugins, p))
    ensures OnlySavedStored(SetPolicyAll(s, userId, a, p, v, merged, LOAD_OK, combinedIo, adminIo).state, plugins)
  {
    var s' := SetPolicyAll(s, userId, a, p, v, merged, LOAD_OK, combinedIo, adminIo).state;
    forall u, x, q | Value(s', u, x, q).Some? ensures Saves(plugins, q) {
      SavedEntry(s, userId, a, p, v, merged, combinedIo, adminIo, u, x, q);
    }
  }

  lemma {:induction false} EventsStoreSaved(s: ManagerState, plugins: Plugins, p: string, order: seq<string>,
                                            values: Items, data: Parcel, u: int, combinedIo: Outcome, adminIo: Outcome)
    requires OnlySavedStored(s, plugins) && NamedRight(plugins) && p in plugins
    requires forall a :: a in order ==> a in values
    ensures OnlySavedStored(EventRounds(s, plugins[p], order, values, data, u, LOAD_OK, combinedIo, adminIo), plugins)
  {
    if order != [] {
      var n := |order| - 1;
      assert forall a :: a in order[..n] ==> a in order;
      assert order[n] in order;
      EventsStoreSaved(s, plugins, p, order[..n], values, data, u, combinedIo, adminIo);
      var before := EventRounds(s, plugins[p], order[..n], values, data, u, LOAD_OK, combinedIo, adminIo);
      LoadedValues(before, u, plugins);
      var l := Loaded(before, u, LOAD_OK);
      var e := plugins[p].onEvent(data, values[order[n]], OthersMerge(l.caches[u], plugins[p], order[n]));
      if plugins[p].needSave {
        SaveStoresSaved(l, plugins, u, order[n], p, e.policyData, e.mergeData, combinedIo, adminIo);
      }
    }
  }

  lemma ReplaceStoresSaved(s: ManagerState, plugins: Plugins, userId: int, a: string, b: string, io: Outcome)
    requires OnlySavedStored(s, plugins)
    ensures OnlySavedStored(ReplaceAllSpec(s, userId, a, b, LOAD_OK, io).state, plugins)
  {
    var c, s' := CacheOf(s, userId), ReplaceAllSpec(s, userId, a, b, LOAD_OK, io).state;
    forall u, x, q | Value(s', u, x, q).Some? ensures Saves(plugins, q) {
      if u == userId {
        assert Value(s, u, x, q).Some? || Value(s, u, a, q).Some?;
      } else {
        ReplaceOtherUser(c, s.tables, userId, a, b, io, u);
        assert Value(s, u, x, q).Some?;
      }
    }
  }

  lemma CallStoresSaved(s: ManagerState, plugins: Plugins, c: StoreCall)
    requires OnlySavedStored(s, plugins) && NamedRight(plugins)
    ensures OnlySavedStored(AfterCall(s, plugins, c), plugins)
  {
    match c.call
    case Update(u, p, a, data) =>
      LoadedValues(s, u, plugins);
      if p in plugins {
        var l := Loaded(s, u, LOAD_OK);
        var h := plugins[p].handle(data, OrEmpty(ReadPolicy(l.caches[u], a, p)),
                                   OthersMerge(l.caches[u], plugins[p], a));
        if plugins[p].needSave {
          SaveStoresSaved(l, plugins, u, a, p, h.policyData, h.mergeData, c.combinedIo, c.adminIo);
        }
      }
    case Event(u, p, order, data) =>
      LoadedValues(s, u, plugins);
      if p in plugins && forall a :: a in order ==> a in Holders(CacheOf(s, u), p) {
        EventsStoreSaved(Loaded(s, u, LOAD_OK), plugins, p, order, Holders(CacheOf(s, u), p), data, u, c.combinedIo,
                         c.adminIo);
      }
    case Remove(u, p, a) =>
      LoadedValues(s, u, plugins);
      if p in plugins && plugins[p].needSave {
        var l := Loaded(s, u, LOAD_OK);
        SaveStoresSaved(l, plugins, u, "", p, "", "", c.combinedIo, c.adminIo);
        SaveStoresSaved(l, plugins, u, a, p, "", OthersMerge(l.caches[u], plugins[p], a), c.combinedIo, c.adminIo);
      }
    case Replace(u, a, b) => ReplaceStoresSaved(s, plugins, u, a, b, c.adminIo);
  }

  /** After any calls on an empty store, any row calls failing, nothing is stored under a policy that its plugin does
      not save, so a removal that succeeds leaves no row of its victims at all. */
  lemma {:induction false} RunStoresSaved(plugins: Plugins, calls: seq<StoreCall>, whom: set<string>)
    requires NamedRight(plugins)
    ensures OnlySavedStored(AfterCalls(NO_STORE, plugins, calls), plugins)
    ensures StoredSaves(AfterCalls(NO_STORE, plugins, calls), whom, plugins)
  {
    if calls != [] {
      RunStoresSaved(plugins, calls[..|calls| - 1], whom);
      CallStoresSaved(AfterCalls(NO_STORE, plugins, calls[..|calls| - 1]), plugins, calls[|calls| - 1]);
    } else {
      assert forall u :: CacheOf(NO_STORE, u) == EMPTY_CACHE;
    }
  }

  /** Cascade completeness for the roster: no victim and no child of the administrator under the default user. */
  lemma NobodyIsLeft(r: Roster, r': Roster, dels: seq<(int, string)>, name: string)
    requires RosterMoved(r, r', dels, Victims(r.admins, name))
    requires forall x :: x in Victims(r.admins, name) ==> Absent(r'.admins, DEFAULT_USER_ID, x)
    ensures NobodyLeft(r'.admins, Victims(r.admins, name), name)
  {
    var list, left := ListOf(r.admins, DEFAULT_USER_ID), ListOf(r'.admins, DEFAULT_USER_ID);
    LifecycleSafety.SublistOf(r.admins, dels, DEFAULT_USER_ID);
    forall e | e in left ensures e.packageName !in Victims(r.admins, name) && !IsChildOf(e, name) {
      var k :| 0 <= k < |left| && left[k] == e;
      assert e.packageName in Victims(r.admins, name) ==> Absent(r'.admins, DEFAULT_USER_ID, e.packageName);
      var i :| 0 <= i < |list| && list[i] == e;
      if IsChildOf(e, name) { ChildIsListed(list, name, i); }
    }
  }

  /** Deletions keep roster and table in step. */
  lemma {:induction false} DeletionsKeepCore(r: Roster, dels: seq<(int, string)>)
    requires RosterSync.CoreInSync(r)
    ensures RosterSync.CoreInSync(DeleteAllIn(r, dels))
  {
    if dels != [] {
      var init, last := dels[..|dels| - 1], dels[|dels| - 1];
      DeletionsKeepCore(r, init);
      RosterSync.DeleteKeepsCore(DeleteAllIn(r, init), last.0, last.1);
    }
  }

  /** A package that a removal took out of the roster has no row left that a restart could bring back. */
  lemma NoRestartRevives(r: Roster, r': Roster, dels: seq<(int, string)>, whom: set<string>, user: int, admin: string)
    requires RosterSync.CoreInSync(r) && RosterMoved(r, r', dels, whom) && Absent(r'.admins, user, admin)
    ensures !Named(RowsOf(r'.rows, user), admin)
  {
    DeletionsKeepCore(r, dels);
    var list, rows := ListOf(r'.admins, user), RowsOf(r'.rows, user);
    assert RosterSync.CoresOf(list) == RosterSync.CoresOf(rows) &&
           |RosterSync.CoresOf(list)| == |RosterSync.CoresOf(rows)|;
    forall i | 0 <= i < |rows| ensures rows[i].packageName != admin {
      assert RosterSync.CoresOf(list)[i] == RosterSync.CoresOf(rows)[i];
    }
  }

  /** Cascade frame: policy rows, roster entries and administrator rows of every other package are untouched, success
      or not. */
  lemma CascadeFrame(s: ManagerState, s': ManagerState, r: Roster, r': Roster, dels: seq<(int, string)>,
                     whom: set<string>, plugins: Plugins)
    requires StoreGood(s) && StoreMoved(s, s', whom, plugins) && RosterMoved(r, r', dels, whom)
    ensures forall row: AdminRow :: row.admin !in whom ==> (row in s'.tables.adminRows <==> row in s.tables.adminRows)
    ensures forall row: AdminRow :: row in s'.tables.adminRows ==> row in s.tables.adminRows
    ensures forall u :: FilterOut(ListOf(r'.admins, u), whom) == FilterOut(ListOf(r.admins, u), whom)
    ensures forall u :: FilterOut(RowsOf(r'.rows, u), whom) == FilterOut(RowsOf(r.rows, u), whom)
  {
    forall row: AdminRow
      ensures row in s'.tables.adminRows ==> row in s.tables.adminRows
      ensures row.admin !in whom && row in s.tables.adminRows ==> row in s'.tables.adminRows
    {
      RowIsValue(s, row.userId, row.admin, row.policy, row.value);
      RowIsValue(s', row.userId, row.admin, row.policy, row.value);
      assert DroppedOrKept(s, s', whom, plugins, row.userId, row.admin, row.policy);
    }
    forall u ensures FilterOut(ListOf(r'.admins, u), whom) == FilterOut(ListOf(r.admins, u), whom) {
      OthersKept(r.admins, dels, whom, u);
    }
    forall u ensures FilterOut(RowsOf(r'.rows, u), whom) == FilterOut(RowsOf(r.rows, u), whom) {
      OtherRowsKept(r.rows, dels, whom, u);
    }
  }

  // ----- Progress of a cascade -----

  /** One administrator is gone from the user's roster and has no value left there that its plugin saves. */
  ghost predicate GoneUnder(s: ManagerState, admins: Admins, user: int, admin: string, plugins: Plugins) {
    Absent(admins, user, admin) && OnlyUnsavedLeft(s, user, admin, plugins)
  }

  ghost predicate GoneUnderAll(s: ManagerState, admins: Admins, users: seq<int>, admin: string, plugins: Plugins) {
    forall u :: u in users ==> GoneUnder(s, admins, u, admin, plugins)
  }

  ghost predicate AllGoneUnder(s: ManagerState, admins: Admins, users: seq<int>, whom: seq<string>, plugins: Plugins) {
    forall x :: x in whom ==> GoneUnderAll(s, admins, users, x, plugins)
  }

  lemma GoneUnderStays(s: ManagerState, s': ManagerState, r: Roster, r': Roster, dels: seq<(int, string)>,
                       whom: set<string>, user: int, admin: string, plugins: Plugins)
    requires GoneUnder(s, r.admins, user, admin, plugins) && OnlyDropped(s, s', whom, plugins) &&
             RosterMoved(r, r', dels, whom)
    ensures GoneUnder(s', r'.admins, user, admin, plugins)
  {
    AbsentStays(r.admins, dels, user, admin);
    DroppedStays(s, s', whom, user, admin, plugins);
  }

  lemma GoneUnderAllStays(s: ManagerState, s': ManagerState, r: Roster, r': Roster, dels: seq<(int, string)>,
                          whom: set<string>, users: seq<int>, admin: string, plugins: Plugins)
    requires GoneUnderAll(s, r.admins, users, admin, plugins) && OnlyDropped(s, s', whom, plugins) &&
             RosterMoved(r, r', dels, whom)
    ensures GoneUnderAll(s', r'.admins, users, admin, plugins)
  {
    forall u | u in users ensures GoneUnder(s', r'.admins, u, admin, plugins) {
      GoneUnderStays(s, s', r, r', dels, whom, u, admin, plugins);
    }
  }

  lemma AllGoneUnderStays(s: ManagerState, s': ManagerState, r: Roster, r': Roster, dels: seq<(int, string)>,
                          whom: set<string>, users: seq<int>, admins: seq<string>, plugins: Plugins)
    requires AllGoneUnder(s, r.admins, users, admins, plugins) && OnlyDropped(s, s', whom, plugins) &&
             RosterMoved(r, r', dels, whom)
    ensures AllGoneUnder(s', r'.admins, users, admins, plugins)
  {
    forall x | x in admins ensures GoneUnderAll(s', r'.admins, users, x, plugins) {
      GoneUnderAllStays(s, s', r, r', dels, whom, users, x, plugins);
    }
  }

  /** Whoever lost its entry under a user has no policy left there that its plugin saves. */
  ghost predicate NoOrphans(s: ManagerState, dels: seq<(int, string)>, plugins: Plugins) {
    forall d :: d in dels ==> OnlyUnsavedLeft(s, d.0, d.1, plugins)
  }

  /** Store and roster moved by removals of `whom`; policies go before the entry, also when a removal fails half-way. */
  ghost predicate Moved(s: ManagerState, s': ManagerState, r: Roster, r': Roster, dels: seq<(int, string)>,
                        whom: set<string>, plugins: Plugins)
  {
    StoreMoved(s, s', whom, plugins) && RosterMoved(r, r', dels, whom) && NoOrphans(s', dels, plugins)
  }

  lemma MovedTrans(s: ManagerState, t: ManagerState, s': ManagerState, r: Roster, q: Roster, r': Roster,
                   a: seq<(int, string)>, b: seq<(int, string)>, whom: set<string>, whom': set<string>,
                   all: set<string>, plugins: Plugins)
    requires Moved(s, t, r, q, a, whom, plugins) && Moved(t, s', q, r', b, whom', plugins) && whom <= all &&
             whom' <= all
    ensures Moved(s, s', r, r', a + b, all, plugins)
  {
    DroppedWiden(s, t, whom, all, plugins);
    DroppedWiden(t, s', whom', all, plugins);
    DroppedTrans(s, t, s', all, all, plugins);
    RosterMovedTrans(r, q, r', a, b, all, all);
    forall d | d in a + b ensures OnlyUnsavedLeft(s', d.0, d.1, plugins) {
      if d in a { DroppedStays(t, s', all, d.0, d.1, plugins); }
    }
  }

  lemma DroppedWiden(s: ManagerState, s': ManagerState, whom: set<string>, all: set<string>, plugins: Plugins)
    requires OnlyDropped(s, s', whom, plugins) && whom <= all
    ensures OnlyDropped(s, s', all, plugins)
  {
    forall u, x, q ensures DroppedOrKept(s, s', all, plugins, u, x, q) {
      assert DroppedOrKept(s, s', whom, plugins, u, x, q);
    }
  }

  lemma NothingMoved(s: ManagerState, r: Roster, whom: set<string>, plugins: Plugins)
    requires StoreGood(s)
    ensures Moved(s, s, r, r, [], whom, plugins)
  {
  }
}
