/** The enterprise device manager ability: removals that cascade over users, children and policies, and the life-cycle
    calls, on the policy store, the plugin manager and the administrator manager. */
module Ability {
  import opened PolicyModel
  import opened StoreLaws
  import opened PolicyManagers
  import opened ManagerModel
  import opened PipelineModel
  import opened Pipeline
  import opened AdminModel
  import opened AdminStore
  import opened LifecycleModel
  import opened LifecycleSafety
  import opened CascadeModel
  import opened KeepPolicy

  /** How the storage calls of a removal end, by user, administrator and policy. */
  datatype Faults = Faults(combined: (int, string, string) -> Outcome, item: (int, string, string) -> Outcome,
                           roster: (int, string) -> Outcome)

  /** No storage call of a removal fails. */
  ghost predicate NoFault(f: Faults) {
    && (forall u, a, p :: f.combined(u, a, p) == Done && f.item(u, a, p) == Done)
    && (forall u, a :: f.roster(u, a) == Done)
  }

  /** Nothing stands in the way of removing these administrators. */
  ghost predicate Smooth(s: ManagerState, whom: set<string>, plugins: Plugins, f: Faults) {
    NoFault(f) && AllPlugged(s, whom, plugins)
  }

  class EnterpriseDeviceMgrAbility {
    const adminMgr: AdminManager
    const pluginMgr: PluginManager
    var edmEnable: bool

    constructor (adminMgr: AdminManager, pluginMgr: PluginManager, edmEnable: bool)
      ensures this.adminMgr == adminMgr && this.pluginMgr == pluginMgr && this.edmEnable == edmEnable
    {
      this.adminMgr, this.pluginMgr, this.edmEnable := adminMgr, pluginMgr, edmEnable;
    }

    ghost function Store(): ManagerState
      reads pluginMgr.policyMgr, pluginMgr.policyMgr.storage, pluginMgr.policyMgr.Managers()
    {
      pluginMgr.policyMgr.State()
    }

    ghost predicate Valid()
      reads pluginMgr, pluginMgr.policyMgr
    {
      pluginMgr.policyMgr.Valid() && NamedRight(pluginMgr.pluginsName)
    }

    ghost function HostPlugins(): Plugins
      reads pluginMgr
    {
      pluginMgr.pluginsName
    }

    method RemoveItem(admin: string, policy: string, value: string, userId: int, f: Faults) returns (ok: bool)
      requires Valid() && StoreGood(Store())
      modifies pluginMgr.policyMgr.Repr()
      ensures Valid() && fresh(pluginMgr.policyMgr.Managers() - old(pluginMgr.policyMgr.Managers()))
      ensures StoreMoved(old(Store()), Store(), {admin}, HostPlugins())
      ensures ok ==> GoneOrUnsaved(Store(), userId, admin, policy, HostPlugins())
      ensures NoFault(f) && policy in HostPlugins() ==> ok
    {
      var io := CallIo(LOAD_OK, f.combined(userId, admin, policy), f.item(userId, admin, policy));
      ghost var before := Store();
      var err := pluginMgr.RemoveAdminItem(admin, policy, value, userId, io);
      if policy in pluginMgr.pluginsName {
        RemoveItemEffect(before, pluginMgr.pluginsName, policy, admin, userId, io.combined, io.admin);
      }
      return err == CallOk;
    }

    /** `load` is how a first load of the user's manager ends. When it finds no administrators' rows there is nothing to
        remove, and the removal succeeds. */
    method RemoveAdminPolicy(admin: string, userId: int, load: LoadIo, f: Faults) returns (ok: bool)
      requires Valid() && StoreGood(Store()) && (LoadsRight(Store(), userId, load) || load.admin != Done)
      modifies pluginMgr.policyMgr.Repr()
      ensures Valid() && fresh(pluginMgr.policyMgr.Managers() - old(pluginMgr.policyMgr.Managers()))
      ensures RemovedOrMissed(old(Store()), Store(), userId, admin, load, HostPlugins(), ok)
      ensures Smooth(old(Store()), {admin}, HostPlugins(), f) ==> ok
    {
      ghost var before, plugins := Store(), HostPlugins();
      var items := PoliciesOf(admin, userId, load);
      ghost var loaded := Store();
      FoundIs(before, userId, admin, load, plugins);
      ok := RemoveFound(admin, items, userId, plugins, f);
      ItemsTaken(before, loaded, Store(), userId, admin, load, items, plugins, ok);
    }

    method PoliciesOf(admin: string, userId: int, load: LoadIo) returns (items: Items)
      requires Valid()
      modifies pluginMgr.policyMgr
      ensures Valid() && fresh(pluginMgr.policyMgr.Managers() - old(pluginMgr.policyMgr.Managers()))
      ensures Store() == Loaded(old(Store()), userId, load) && items == Found(old(Store()), userId, admin, load)
      ensures HostPlugins() == old(HostPlugins())
    {
      var _, values := pluginMgr.policyMgr.GetAllPolicyByAdmin(admin, userId, load);
      items := values;
    }

    method RemoveFound(admin: string, items: Items, userId: int, ghost plugins: Plugins, f: Faults) returns (ok: bool)
      requires Valid() && plugins == HostPlugins() && (items != map[] ==> StoreGood(Store()))
      modifies pluginMgr.policyMgr.Repr()
      ensures Valid() && fresh(pluginMgr.policyMgr.Managers() - old(pluginMgr.policyMgr.Managers()))
      ensures HostPlugins() == plugins && Taken(old(Store()), Store(), userId, admin, items, plugins, ok)
      ensures NoFault(f) && items.Keys <= plugins.Keys ==> ok
    {
      ok := true;
      if items != map[] { ok := RemoveItems(admin, items, userId, plugins, f); }
    }

    /** The loop over the administrator's policies, in some order. */
    method RemoveItems(admin: string, items: Items, userId: int, ghost plugins: Plugins, f: Faults) returns (ok: bool)
      requires Valid() && StoreGood(Store()) && plugins == HostPlugins()
      modifies pluginMgr.policyMgr.Repr()
      ensures Valid() && fresh(pluginMgr.policyMgr.Managers() - old(pluginMgr.policyMgr.Managers()))
      ensures StoreMoved(old(Store()), Store(), {admin}, plugins) && HostPlugins() == plugins
      ensures ok ==> ItemsGone(Store(), userId, admin, items, plugins)
      ensures NoFault(f) && items.Keys <= plugins.Keys ==> ok
    {
      ghost var before := Store();
      var order := PluginManager.ListAdmins(items.Keys);
      ghost var gone: seq<string> := [];
      var i := 0;
      while i < |order|
        invariant 0 <= i <= |order| && gone == order[..i]
        invariant Valid() && fresh(pluginMgr.policyMgr.Managers() - old(pluginMgr.policyMgr.Managers()))
        invariant HostPlugins() == plugins && StoreMoved(before, Store(), {admin}, plugins)
        invariant AllGone(Store(), userId, admin, gone, plugins)
      {
        ok := RemoveNext(before, admin, gone, order[i], items[order[i]], userId, plugins, f);
        if !ok { return false; }
        gone := gone + [order[i]];
        i := i + 1;
      }
      assert gone == order;
      return true;
    }

    method RemoveNext(ghost before: ManagerState, admin: string, ghost gone: seq<string>, policy: string, value: string,
                      userId: int, ghost plugins: Plugins, f: Faults) returns (ok: bool)
      requires Valid() && HostPlugins() == plugins && StoreMoved(before, Store(), {admin}, plugins)
      requires AllGone(Store(), userId, admin, gone, plugins)
      modifies pluginMgr.policyMgr.Repr()
      ensures Valid() && fresh(pluginMgr.policyMgr.Managers() - old(pluginMgr.policyMgr.Managers()))
      ensures StoreMoved(before, Store(), {admin}, plugins)
      ensures ok ==> AllGone(Store(), userId, admin, gone + [policy], plugins)
      ensures NoFault(f) && policy in plugins ==> ok
    {
      ghost var now := Store();
      ok := RemoveItem(admin, policy, value, userId, f);
      StoreMovedTrans(before, now, Store(), {admin}, {admin}, plugins);
      GoneStays(now, Store(), userId, admin, gone, plugins);
    }

    ghost function RosterState(): Roster
      reads adminMgr.container, adminMgr.storage
    {
      adminMgr.State()
    }

    method RemoveAdmin(admin: string, userId: int, f: Faults) returns (ok: bool, ghost dels: seq<(int, string)>)
      modifies adminMgr.container, adminMgr.storage
      ensures RosterMoved(old(RosterState()), RosterState(), dels, {admin})
      ensures dels == [] || (ok && dels == [(userId, admin)])
      ensures ok ==> Absent(RosterState().admins, userId, admin)
      ensures NoFault(f) ==> ok
    {
      ghost var before := RosterState();
      var err := adminMgr.DeleteAdmin(admin, userId, f.roster(userId, admin));
      DeletedAbsent(before, userId, admin, f.roster(userId, admin));
      dels := if err == AdminOk then [(userId, admin)] else [];
      ok := err == AdminOk || err == UnknownAdmin;
    }

    method RemoveAdminAndAdminPolicy(admin: string, userId: int, load: LoadIo, ghost plugins: Plugins, f: Faults)
      returns (ok: bool, ghost dels: seq<(int, string)>)
      requires Valid() && StoreGood(Store()) && plugins == HostPlugins()
      requires LoadsRight(Store(), userId, load) || load.admin != Done
      modifies pluginMgr.policyMgr.Repr(), adminMgr.container, adminMgr.storage
      ensures Valid() && fresh(pluginMgr.policyMgr.Managers() - old(pluginMgr.policyMgr.Managers()))
      ensures RosterMoved(old(RosterState()), RosterState(), dels, {admin})
      ensures dels == [] || (ok && dels == [(userId, admin)])
      ensures ok ==> Absent(RosterState().admins, userId, admin)
      ensures if LoadsRight(old(Store()), userId, load)
              then StoreMoved(old(Store()), Store(), {admin}, plugins) &&
                   (ok ==> OnlyUnsavedLeft(Store(), userId, admin, plugins))
              else Store() == Loaded(old(Store()), userId, load)
      ensures Smooth(old(Store()), {admin}, plugins, f) ==> ok
    {
      ghost var roster := RosterState();
      ok := RemoveAdminPolicy(admin, userId, load, f);
      assert RosterState() == roster;
      dels := [];
      if !ok { return; }
      ghost var store := Store();
      ok, dels := RemoveAdmin(admin, userId, f);
      assert Store() == store;
    }

    method RemoveSubOrSuperAdminAndAdminPolicy(admin: string, nonDefaultUserIds: seq<int>, ghost plugins: Plugins,
                                               f: Faults)
      returns (ok: bool, ghost dels: seq<(int, string)>)
      requires Valid() && StoreGood(Store()) && plugins == HostPlugins()
      modifies pluginMgr.policyMgr.Repr(), adminMgr.container, adminMgr.storage
      ensures Valid() && fresh(pluginMgr.policyMgr.Managers() - old(pluginMgr.policyMgr.Managers()))
      ensures Moved(old(Store()), Store(), old(RosterState()), RosterState(), dels, {admin}, plugins)
      ensures ok ==> GoneUnderAll(Store(), RosterState().admins, nonDefaultUserIds + [DEFAULT_USER_ID], admin, plugins)
      ensures !ok && DEFAULT_USER_ID !in nonDefaultUserIds ==> (DEFAULT_USER_ID, admin) !in dels
      ensures Smooth(old(Store()), {admin}, plugins, f) ==> ok
    {
      ghost var s, r := Store(), RosterState();
      NothingMoved(s, r, {admin}, plugins);
      dels := [];
      var i := 0;
      while i < |nonDefaultUserIds|
        invariant 0 <= i <= |nonDefaultUserIds|
        invariant Valid() && fresh(pluginMgr.policyMgr.Managers() - old(pluginMgr.policyMgr.Managers()))
        invariant Moved(s, Store(), r, RosterState(), dels, {admin}, plugins)
        invariant GoneUnderAll(Store(), RosterState().admins, nonDefaultUserIds[..i], admin, plugins)
        invariant forall d :: d in dels ==> d.0 in nonDefaultUserIds[..i]
      {
        ok, dels := RemoveForUser(s, r, dels, admin, nonDefaultUserIds[..i], nonDefaultUserIds[i], plugins, f);
        if !ok { return; }
        assert nonDefaultUserIds[..i] + [nonDefaultUserIds[i]] == nonDefaultUserIds[..i + 1];
        i := i + 1;
      }
      assert nonDefaultUserIds[..i] == nonDefaultUserIds;
      ok, dels := RemoveForUser(s, r, dels, admin, nonDefaultUserIds, DEFAULT_USER_ID, plugins, f);
    }

    /** One round: what earlier rounds removed stays removed. */
    method RemoveForUser(ghost s: ManagerState, ghost r: Roster, ghost before: seq<(int, string)>, admin: string,
                         ghost done: seq<int>, userId: int, ghost plugins: Plugins, f: Faults)
      returns (ok: bool, ghost dels: seq<(int, string)>)
      requires Valid() && Moved(s, Store(), r, RosterState(), before, {admin}, plugins) && plugins == HostPlugins()
      requires GoneUnderAll(Store(), RosterState().admins, done, admin, plugins)
      modifies pluginMgr.policyMgr.Repr(), adminMgr.container, adminMgr.storage
      ensures Valid() && fresh(pluginMgr.policyMgr.Managers() - old(pluginMgr.policyMgr.Managers()))
      ensures Moved(s, Store(), r, RosterState(), dels, {admin}, plugins)
      ensures ok ==> GoneUnderAll(Store(), RosterState().admins, done + [userId], admin, plugins)
      ensures forall d :: d in dels ==> d in before || (ok && d == (userId, admin))
      ensures Smooth(s, {admin}, plugins, f) ==> ok
    {
      ghost var now, roster := Store(), RosterState();
      ghost var step;
      if AllPlugged(s, {admin}, plugins) { PluggedStays(s, now, {admin}, {admin}, plugins); }
      ok, step := RemoveAdminAndAdminPolicy(admin, userId, LOAD_OK, plugins, f);
      dels := before + step;
      RoundMoves(s, now, Store(), r, roster, RosterState(), before, step, admin, done, userId, plugins, ok);
    }

    method RemoveSubSuperAdminAndAdminPolicy(admin: string, f: Faults)
      returns (ok: bool, ghost dels: seq<(int, string)>)
      requires Valid() && StoreGood(Store())
      modifies pluginMgr.policyMgr.Repr(), adminMgr.container, adminMgr.storage
      ensures Valid() && fresh(pluginMgr.policyMgr.Managers() - old(pluginMgr.policyMgr.Managers()))
      ensures RemovedOne(old(Store()), Store(), old(RosterState()), RosterState(), dels, admin, HostPlugins(), ok)
      ensures Smooth(old(Store()), {admin}, HostPlugins(), f) ==> ok
    {
      var userIds := ManagedUsers();
      ok, dels := RemoveAlone(admin, userIds, f);
    }

    method ManagedUsers() returns (userIds: seq<int>)
      requires Valid()
      ensures Valid() && Store() == old(Store()) && RosterState() == old(RosterState())
      ensures forall u :: u in userIds <==> u in PolicyUserIds(Store())
    {
      userIds := pluginMgr.policyMgr.GetPolicyUserIds();
    }

    method RemoveAlone(admin: string, userIds: seq<int>, f: Faults) returns (ok: bool, ghost dels: seq<(int, string)>)
      requires Valid() && StoreGood(Store()) && forall u :: u in userIds <==> u in PolicyUserIds(Store())
      modifies pluginMgr.policyMgr.Repr(), adminMgr.container, adminMgr.storage
      ensures Valid() && fresh(pluginMgr.policyMgr.Managers() - old(pluginMgr.policyMgr.Managers()))
      ensures RemovedOne(old(Store()), Store(), old(RosterState()), RosterState(), dels, admin, HostPlugins(), ok)
      ensures Smooth(old(Store()), {admin}, HostPlugins(), f) ==> ok
    {
      ghost var s, r, plugins := Store(), RosterState(), HostPlugins();
      ok, dels := RemoveSubOrSuperAdminAndAdminPolicy(admin, userIds, plugins, f);
      OneRemoved(s, Store(), r, RosterState(), dels, userIds, admin, plugins, ok);
    }

    /** The children first, then the super administrator, each under every managed user and the default one. */
    method RemoveSuperAdminAndAdminPolicy(admin: string, f: Faults) returns (ok: bool, ghost dels: seq<(int, string)>)
      requires Valid() && StoreGood(Store())
      modifies pluginMgr.policyMgr.Repr(), adminMgr.container, adminMgr.storage
      ensures Valid() && fresh(pluginMgr.policyMgr.Managers() - old(pluginMgr.policyMgr.Managers()))
      ensures Cascaded(old(Store()), Store(), old(RosterState()), RosterState(), dels, admin, HostPlugins(), ok)
      ensures Smooth(old(Store()), Victims(old(RosterState()).admins, admin), HostPlugins(), f) ==> ok
    {
      var userIds, children := FamilyOf(admin);
      ok, dels := RemoveFamily(admin, userIds, children, f);
    }

    method FamilyOf(admin: string) returns (userIds: seq<int>, children: seq<string>)
      requires Valid()
      ensures Valid() && Store() == old(Store()) && RosterState() == old(RosterState())
      ensures forall u :: u in userIds <==> u in PolicyUserIds(Store())
      ensures children == ChildrenOf(Copies(ListOf(RosterState().admins, DEFAULT_USER_ID)), admin)
    {
      userIds := ManagedUsers();
      children := adminMgr.GetSubSuperAdminsByParentName(admin);
    }

    method RemoveFamily(admin: string, userIds: seq<int>, children: seq<string>, f: Faults)
      returns (ok: bool, ghost dels: seq<(int, string)>)
      requires Valid() && StoreGood(Store()) && forall u :: u in userIds <==> u in PolicyUserIds(Store())
      requires children == ChildrenOf(Copies(ListOf(RosterState().admins, DEFAULT_USER_ID)), admin)
      modifies pluginMgr.policyMgr.Repr(), adminMgr.container, adminMgr.storage
      ensures Valid() && fresh(pluginMgr.policyMgr.Managers() - old(pluginMgr.policyMgr.Managers()))
      ensures Cascaded(old(Store()), Store(), old(RosterState()), RosterState(), dels, admin, HostPlugins(), ok)
      ensures Smooth(old(Store()), Victims(old(RosterState()).admins, admin), HostPlugins(), f) ==> ok
    {
      ghost var s, r, plugins := Store(), RosterState(), HostPlugins();
      ok, dels := RemoveEach(children + [admin], userIds, plugins, f, Victims(r.admins, admin));
      CascadeDone(s, Store(), r, RosterState(), dels, userIds, children, admin, plugins, ok);
    }

    method RemoveEach(names: seq<string>, userIds: seq<int>, ghost plugins: Plugins, f: Faults, ghost all: set<string>)
      returns (ok: bool, ghost dels: seq<(int, string)>)
      requires Valid() && StoreGood(Store()) && plugins == HostPlugins() && forall x :: x in names ==> x in all
      modifies pluginMgr.policyMgr.Repr(), adminMgr.container, adminMgr.storage
      ensures Valid() && fresh(pluginMgr.policyMgr.Managers() - old(pluginMgr.policyMgr.Managers()))
      ensures Moved(old(Store()), Store(), old(RosterState()), RosterState(), dels, all, plugins)
      ensures ok ==> AllGoneUnder(Store(), RosterState().admins, userIds + [DEFAULT_USER_ID], names, plugins)
      ensures !ok && DEFAULT_USER_ID !in userIds ==> LastStays(names, dels)
      ensures Smooth(old(Store()), all, plugins, f) ==> ok
    {
      ghost var s, r := Store(), RosterState();
      NothingMoved(s, r, all, plugins);
      dels := [];
      var i := 0;
      while i < |names|
        invariant 0 <= i <= |names|
        invariant Valid() && fresh(pluginMgr.policyMgr.Managers() - old(pluginMgr.policyMgr.Managers()))
        invariant Moved(s, Store(), r, RosterState(), dels, all, plugins)
        invariant AllGoneUnder(Store(), RosterState().admins, userIds + [DEFAULT_USER_ID], names[..i], plugins)
        invariant forall d :: d in dels ==> d.1 in names[..i]
      {
        assert names[i] in names;
        ghost var before := dels;
        ok, dels := RemoveOne(s, r, dels, names[..i], names[i], userIds, plugins, f, all);
        if !ok {
          if DEFAULT_USER_ID !in userIds { LastIsLast(names, i, before, dels); }
          return;
        }
        assert names[..i] + [names[i]] == names[..i + 1];
        i := i + 1;
      }
      assert names[..i] == names;
      ok := true;
    }

    method RemoveOne(ghost s: ManagerState, ghost r: Roster, ghost before: seq<(int, string)>, ghost done: seq<string>,
                     name: string, userIds: seq<int>, ghost plugins: Plugins, f: Faults, ghost all: set<string>)
      returns (ok: bool, ghost dels: seq<(int, string)>)
      requires Valid() && Moved(s, Store(), r, RosterState(), before, all, plugins) && name in all &&
               plugins == HostPlugins()
      requires AllGoneUnder(Store(), RosterState().admins, userIds + [DEFAULT_USER_ID], done, plugins)
      modifies pluginMgr.policyMgr.Repr(), adminMgr.container, adminMgr.storage
      ensures Valid() && fresh(pluginMgr.policyMgr.Managers() - old(pluginMgr.policyMgr.Managers()))
      ensures Moved(s, Store(), r, RosterState(), dels, all, plugins)
      ensures ok ==> AllGoneUnder(Store(), RosterState().admins, userIds + [DEFAULT_USER_ID], done + [name], plugins)
      ensures forall d :: d in dels ==> d in before || d.1 == name
      ensures !ok && DEFAULT_USER_ID !in userIds && (DEFAULT_USER_ID, name) in dels ==>
                (DEFAULT_USER_ID, name) in before
      ensures Smooth(s, all, plugins, f) ==> ok
    {
      ghost var now, roster := Store(), RosterState();
      ghost var step;
      if AllPlugged(s, all, plugins) { PluggedStays(s, now, all, all, plugins); }
      ok, step := RemoveSubOrSuperAdminAndAdminPolicy(name, userIds, plugins, f);
      dels := before + step;
      NameMoves(s, now, Store(), r, roster, RosterState(), before, step, done, name, userIds + [DEFAULT_USER_ID], all,
                plugins, ok);
    }

    // ----- Life cycle -----

    ghost function LifeState(): Life
      reads this, adminMgr.container, adminMgr.storage
    {
      Life(adminMgr.State(), edmEnable)
    }

    method VerifyEnableAdminCondition(admin: Element, t: AdminType, userId: int, isDebug: bool, securityMode: bool)
      returns (ok: bool)
      ensures ok <==> MayEnable(adminMgr.container.admins, admin, t, userId, isDebug, securityMode)
    {
      if t == ENT && userId != DEFAULT_USER_ID { return false; }
      if t != ENT && securityMode { return false; }
      var other := adminMgr.container.IsExistTargetAdmin(!isDebug);
      if other { return false; }
      var existing := adminMgr.GetAdminByPkgName(admin.bundleName, userId);
      if existing.Some? {
        if existing.value.adminType != t { return false; }
        if existing.value.isDebug != isDebug { return false; }
        if existing.value.className != admin.abilityName { return false; }
      }
      return true;
    }

    method CheckEnable(admin: Element, t: AdminType, userId: int, env: EnableEnv) returns (err: LifeErr)
      ensures err == EnableCheck(adminMgr.container.admins, admin, t, userId, env)
    {
      if t != NORMAL && t != ENT && t != BYOD { return ParamError; }
      if env.maintenance { return EnableAdminFailed; }
      if !env.sourceAllowed { return ParamError; }
      var count := adminMgr.container.GetSuperDeviceAdminAndDeviceAdminCount();
      if count >= MAX_SDA_AND_DA_COUNT { return EnableAdminFailed; }
      if !env.isDebug && !env.permitted { return PermissionDenied; }
      if !env.abilityFound { return ComponentInvalid; }
      var verified := VerifyEnableAdminCondition(admin, t, userId, env.isDebug, env.securityMode);
      if !verified { return EnableAdminFailed; }
      var existing := adminMgr.GetAdminByPkgName(admin.bundleName, userId);
      if !env.isDebug && t == ENT && IsSuperAdminExist(adminMgr.container.admins) && existing.None? {
        return EnableAdminFailed;
      }
      if env.permission.None? { return ComponentInvalid; }
      return LifeOk;
    }

    method SaveEnabled(userId: int, item: AdminInfo, io: Outcome) returns (err: LifeErr)
      modifies this`edmEnable, adminMgr.container, adminMgr.storage
      ensures LifeResult(LifeState(), err) == SaveEnabledSpec(old(LifeState()), userId, item, io)
    {
      var saved := adminMgr.SetAdminValue(userId, item, io);
      if saved != AdminOk { return EnableAdminFailed; }
      edmEnable := true;
      return LifeOk;
    }

    method EnableAdminWithPermission(admin: Element, entName: string, entDesc: string, t: AdminType, userId: int,
                                     source: EnableSource, env: EnableEnv, io: Outcome) returns (err: LifeErr)
      modifies this`edmEnable, adminMgr.container, adminMgr.storage
      ensures LifeResult(LifeState(), err) ==
              EnableSpec(old(LifeState()), admin, entName, entDesc, t, userId, source, env, io)
    {
      err := CheckEnable(admin, t, userId, env);
      if err == LifeOk {
        err := SaveEnabled(if t == ENT || t == NORMAL then DEFAULT_USER_ID else userId,
                           EnabledInfo(admin, entName, entDesc, t, source, env.isDebug, env.permission.value), io);
      }
    }

    method EnableDeviceAdmin(caller: string, admin: Element, permitted: bool, abilityFound: bool,
                             permission: seq<string>, io: Outcome) returns (err: LifeErr)
      modifies this`edmEnable, adminMgr.container, adminMgr.storage
      ensures LifeResult(LifeState(), err) ==
              EnableDeviceSpec(old(LifeState()), caller, admin, permitted, abilityFound, permission, io)
    {
      var superAdmin := adminMgr.GetAdminByPkgName(caller, DEFAULT_USER_ID);
      if superAdmin.None? { return AdminInactive; }
      if superAdmin.value.adminType != ENT { return AdminPermissionDenied; }
      var count := adminMgr.container.GetSuperDeviceAdminAndDeviceAdminCount();
      if count >= MAX_SDA_AND_DA_COUNT { return EnableAdminFailed; }
      if !permitted { return PermissionDenied; }
      if !abilityFound { return ComponentInvalid; }
      var existing := adminMgr.GetAdminByPkgName(admin.bundleName, DEFAULT_USER_ID);
      if existing.Some? { return if existing.value.adminType == NORMAL then LifeOk else EnableAdminFailed; }
      var item := NO_INFO.(packageName := admin.bundleName, className := admin.abilityName, permission := permission,
                           adminType := NORMAL, isDebug := superAdmin.value.isDebug, enableSource := SUPER_ADMIN);
      err := SaveEnabled(DEFAULT_USER_ID, item, io);
    }

    method AuthorizeAdmin(admin: string, bundleName: string, currentUser: int, permitted: bool,
                          permission: Option<seq<string>>, abilityName: string, io: Outcome) returns (err: LifeErr)
      modifies adminMgr.container, adminMgr.storage
      ensures LifeResult(LifeState(), err) ==
              AuthorizeSpec(old(LifeState()), admin, bundleName, currentUser, permitted, permission, abilityName, io)
    {
      var superAdmin := adminMgr.GetAdminByPkgName(admin, currentUser);
      if superAdmin.None? { return AdminInactive; }
      if superAdmin.value.adminType != ENT { return AdminPermissionDenied; }
      if !permitted { return PermissionDenied; }
      var sub := adminMgr.GetAdminByPkgName(bundleName, currentUser);
      if sub.Some? && sub.value.adminType != SUB_SUPER_ADMIN { return AdminPermissionDenied; }
      if permission.None? { return AuthorizePermissionFailed; }
      var item := NO_INFO.(packageName := bundleName, className := abilityName, permission := permission.value,
                           parentAdminName := admin, adminType := SUB_SUPER_ADMIN, isDebug := superAdmin.value.isDebug);
      var saved := adminMgr.SetAdminValue(DEFAULT_USER_ID, item, io);
      return FromAdminErr(saved);
    }

    method CheckDelegate(parent: string, bundleName: string, policies: seq<string>, currentUser: int, permitted: bool)
      returns (err: LifeErr)
      ensures err == DelegateCheck(adminMgr.container.admins, parent, bundleName, policies, currentUser, permitted)
      ensures Valid() == old(Valid()) && Store() == old(Store())
      ensures pluginMgr.policyMgr.Managers() == old(pluginMgr.policyMgr.Managers())
    {
      if |policies| > POLICIES_MAX_SIZE { return ParamError; }
      var superAdmin := adminMgr.GetAdminByPkgName(parent, currentUser);
      if superAdmin.None? { return AdminInactive; }
      if superAdmin.value.adminType != ENT { return AdminPermissionDenied; }
      if !permitted { return PermissionDenied; }
      if parent == bundleName { return ParamError; }
      return LifeOk;
    }

    method DelegateTo(parent: string, bundleName: string, policies: seq<string>, currentUser: int,
                      ghost permitted: bool, policiesCheck: LifeErr, bundleAllowed: bool,
                      permission: Option<seq<string>>, io: Outcome)
      returns (err: LifeErr)
      requires policies != []
      requires DelegateCheck(adminMgr.container.admins, parent, bundleName, policies, currentUser, permitted) == LifeOk
      modifies adminMgr.container, adminMgr.storage
      ensures Valid() == old(Valid()) && Store() == old(Store())
      ensures pluginMgr.policyMgr.Managers() == old(pluginMgr.policyMgr.Managers())
      ensures LifeResult(LifeState(), err) ==
              DelegateSpec(old(LifeState()), parent, bundleName, policies, currentUser, permitted, policiesCheck,
                           bundleAllowed, permission, io)
    {
      if policiesCheck != LifeOk { return policiesCheck; }
      if !bundleAllowed || permission.None? { return AuthorizePermissionFailed; }
      var superAdmin := adminMgr.GetAdminByPkgName(parent, currentUser);
      var item := DelegatedInfo(bundleName, permission.value, parent, policies, superAdmin.value.isDebug);
      var saved := adminMgr.SetAdminValue(currentUser, item, io);
      return FromAdminErr(saved);
    }

    /** Withdraws a delegation: the removal reaches the default user and the managed users, and does not look at the
        flag. */
    method DisableVirtualAdmin(bundleName: string, f: Faults) returns (err: LifeErr, ghost dels: seq<(int, string)>)
      requires Valid() && StoreGood(Store())
      modifies pluginMgr.policyMgr.Repr(), adminMgr.container, adminMgr.storage
      ensures Valid() && fresh(pluginMgr.policyMgr.Managers() - old(pluginMgr.policyMgr.Managers()))
      ensures Withdrawn(old(Store()), Store(), old(RosterState()), RosterState(), dels, bundleName, err, HostPlugins())
      ensures Smooth(old(Store()), {bundleName}, HostPlugins(), f) ==> err == LifeOk
    {
      var ok;
      ok, dels := RemoveSubSuperAdminAndAdminPolicy(bundleName, f);
      err := if ok then LifeOk else RemovalFailed;
    }

    method SetDelegatedPoliciesByParent(parent: string, bundleName: string, policies: seq<string>, currentUser: int,
                                        permitted: bool, policiesCheck: LifeErr, bundleAllowed: bool,
                                        permission: Option<seq<string>>, io: Outcome, f: Faults)
      returns (err: LifeErr, ghost dels: seq<(int, string)>)
      requires Valid() && StoreGood(Store())
      modifies pluginMgr.policyMgr.Repr(), adminMgr.container, adminMgr.storage
      ensures Valid() && fresh(pluginMgr.policyMgr.Managers() - old(pluginMgr.policyMgr.Managers()))
      ensures Delegated(old(Store()), Store(), old(LifeState()), LifeState(), dels, parent, bundleName, policies,
                        currentUser, permitted, policiesCheck, bundleAllowed, permission, io, err, HostPlugins())
      ensures policies == [] && Smooth(old(Store()), {bundleName}, HostPlugins(), f) ==>
                err == DelegateCheck(old(RosterState()).admins, parent, bundleName, policies, currentUser, permitted)
    {
      dels := [];
      err := CheckDelegate(parent, bundleName, policies, currentUser, permitted);
      if err == LifeOk {
        err, dels := DelegateOrWithdraw(parent, bundleName, policies, currentUser, permitted, policiesCheck,
                                        bundleAllowed, permission, io, f);
      }
    }

    method DelegateOrWithdraw(parent: string, bundleName: string, policies: seq<string>, currentUser: int,
                              ghost permitted: bool, policiesCheck: LifeErr, bundleAllowed: bool,
                              permission: Option<seq<string>>, io: Outcome, f: Faults)
      returns (err: LifeErr, ghost dels: seq<(int, string)>)
      requires Valid() && StoreGood(Store())
      requires DelegateCheck(RosterState().admins, parent, bundleName, policies, currentUser, permitted) == LifeOk
      modifies pluginMgr.policyMgr.Repr(), adminMgr.container, adminMgr.storage
      ensures Valid() && fresh(pluginMgr.policyMgr.Managers() - old(pluginMgr.policyMgr.Managers()))
      ensures Delegated(old(Store()), Store(), old(LifeState()), LifeState(), dels, parent, bundleName, policies,
                        currentUser, permitted, policiesCheck, bundleAllowed, permission, io, err, HostPlugins())
      ensures policies == [] && Smooth(old(Store()), {bundleName}, HostPlugins(), f) ==> err == LifeOk
    {
      ghost var s, l := Store(), LifeState();
      dels := [];
      if policies == [] {
        err, dels := DisableVirtualAdmin(bundleName, f);
        DelegatedByWithdrawal(s, Store(), l, LifeState(), dels, parent, bundleName, currentUser, permitted,
                              policiesCheck, bundleAllowed, permission, io, err, HostPlugins());
      } else {
        err := DelegateTo(parent, bundleName, policies, currentUser, permitted, policiesCheck, bundleAllowed,
                          permission, io);
      }
    }

    method SetDelegatedPolicies(bundleName: string, policies: seq<string>, userId: int, permitted: bool,
                                policiesAllowed: bool, bundleAllowed: bool, caller: Option<string>,
                                permission: Option<seq<string>>, io: Outcome)
      returns (err: LifeErr)
      modifies this`edmEnable, adminMgr.container, adminMgr.storage
      ensures LifeResult(LifeState(), err) ==
              DelegateDirectSpec(old(LifeState()), bundleName, policies, userId, permitted, policiesAllowed,
                                 bundleAllowed, caller, permission, io)
    {
      if !permitted { return PermissionDenied; }
      if |policies| > POLICIES_MAX_SIZE { return ParamError; }
      if !policiesAllowed { return ParamError; }
      var existing := adminMgr.GetAdminByPkgName(bundleName, userId);
      if existing.Some? || !bundleAllowed { return AuthorizePermissionFailed; }
      if caller.None? { return PermissionError; }
      if permission.None? { return AuthorizePermissionFailed; }
      var item := DelegatedInfo(bundleName, permission.value, caller.value,
                                if POLICY_ALLOW_ALL in policies then [POLICY_ALLOW_ALL] else policies, false);
      edmEnable := true;
      var saved := adminMgr.SetAdminValue(userId, item, io);
      return FromAdminErr(saved);
    }

    method SetAdminRunningMode(bundleName: string, currentUser: int, permitted: bool, mode: Option<RunningMode>,
                               io: Outcome)
      returns (err: LifeErr)
      modifies adminMgr.container, adminMgr.storage
      ensures LifeResult(LifeState(), err) ==
              RunningModeSpec(old(LifeState()), bundleName, currentUser, permitted, mode, io)
    {
      var admin := adminMgr.GetAdminByPkgName(bundleName, currentUser);
      if admin.None? { return AdminInactive; }
      if !permitted { return PermissionDenied; }
      if mode.None? { return ParamError; }
      var saved := adminMgr.SetAdminValue(DEFAULT_USER_ID, admin.value.(runningMode := mode.value), io);
      return FromAdminErr(saved);
    }

    /** The removal that fits the administrator's type; the flag goes off when nobody is left. */
    method DoDisableAdmin(admin: AdminInfo, userId: int, f: Faults)
      returns (err: LifeErr, ghost dels: seq<(int, string)>)
      requires Valid() && StoreGood(Store())
      modifies this`edmEnable, pluginMgr.policyMgr.Repr(), adminMgr.container, adminMgr.storage
      ensures Valid() && fresh(pluginMgr.policyMgr.Managers() - old(pluginMgr.policyMgr.Managers()))
      ensures err == LifeOk || err == DisableAdminFailed
      ensures Removal(old(Store()), Store(), old(LifeState()), LifeState(), dels, admin, userId, err == LifeOk,
                      err == LifeOk, HostPlugins())
      ensures Smooth(old(Store()), Whom(old(RosterState()).admins, admin), HostPlugins(), f) ==> err == LifeOk
    {
      var ok;
      ok, dels := RemoveByType(admin, userId, f);
      if !ok { return DisableAdminFailed, dels; }
      LookAtFlag();
      return LifeOk, dels;
    }

    method LookAtFlag()
      modifies this`edmEnable
      ensures edmEnable == if adminMgr.container.admins == map[] then false else old(edmEnable)
      ensures Valid() == old(Valid()) && Store() == old(Store())
      ensures pluginMgr.policyMgr.Managers() == old(pluginMgr.policyMgr.Managers())
    {
      if adminMgr.container.admins == map[] { edmEnable := false; }
    }

    /** `DisableAdmin`: an administrator that works across accounts is disabled under the default user; `check` is what
        `CheckDisableAdmin` answers about the caller. */
    method DisableAdmin(bundleName: string, userId: int, check: LifeErr, f: Faults)
      returns (err: LifeErr, ghost dels: seq<(int, string)>)
      requires Valid() && StoreGood(Store())
      modifies this`edmEnable, pluginMgr.policyMgr.Repr(), adminMgr.container, adminMgr.storage
      ensures Valid() && fresh(pluginMgr.policyMgr.Managers() - old(pluginMgr.policyMgr.Managers()))
      ensures var admin := AdminByPkgName(old(RosterState()).admins, bundleName, userId);
              if admin.None? || check != LifeOk
              then LifeState() == old(LifeState()) && err == (if admin.None? then DisableAdminFailed else check)
              else
                && Removal(old(Store()), Store(), old(LifeState()), LifeState(), dels, admin.value, userId,
                           err == LifeOk, err == LifeOk, HostPlugins())
                && (Smooth(old(Store()), Whom(old(RosterState()).admins, admin.value), HostPlugins(), f) ==>
                      err == LifeOk)
    {
      dels := [];
      var admin := adminMgr.GetAdminByPkgName(bundleName, userId);
      if admin.None? { return DisableAdminFailed, dels; }
      if check != LifeOk { return check, dels; }
      err, dels := DoDisableAdmin(admin.value,
                                  if IsAllowedAcrossAccountSetPolicy(admin.value.adminType) then DEFAULT_USER_ID
                                  else userId, f);
    }

    method RemoveByType(admin: AdminInfo, userId: int, f: Faults) returns (ok: bool, ghost dels: seq<(int, string)>)
      requires Valid() && StoreGood(Store())
      modifies pluginMgr.policyMgr.Repr(), adminMgr.container, adminMgr.storage
      ensures Valid() && fresh(pluginMgr.policyMgr.Managers() - old(pluginMgr.policyMgr.Managers()))
      ensures Removal(old(Store()), Store(), old(LifeState()), LifeState(), dels, admin, userId, ok, false,
                      HostPlugins())
      ensures Smooth(old(Store()), Whom(old(RosterState()).admins, admin), HostPlugins(), f) ==> ok
    {
      ghost var l, all := LifeState(), Victims(RosterState().admins, admin.packageName);
      if admin.adminType == ENT {
        ok, dels := RemoveSuperAdminAndAdminPolicy(admin.packageName, f);
        if ok { NobodyIsAbsent(RosterState().admins, all, admin.packageName); }
      } else if IsAllowedAcrossAccountSetPolicy(admin.adminType) {
        ok, dels := RemoveSubSuperAdminAndAdminPolicy(admin.packageName, f);
      } else {
        ok, dels := RemoveAdminAndAdminPolicy(admin.packageName, userId, LOAD_OK, HostPlugins(), f);
      }
      assert LifeState() == Life(RosterState(), l.enabled);
    }

    /** The event of a removed application: its administrator goes, under the default user with all that hangs on it. */
    method OnCommonEventPackageRemoved(bundleName: string, userId: int, appIndex: int, f: Faults)
      returns (ghost ok: bool, ghost dels: seq<(int, string)>)
      requires Valid() && StoreGood(Store())
      modifies this`edmEnable, pluginMgr.policyMgr.Repr(), adminMgr.container, adminMgr.storage
      ensures Valid() && fresh(pluginMgr.policyMgr.Managers() - old(pluginMgr.policyMgr.Managers()))
      ensures var admin := AdminByPkgName(old(RosterState()).admins, bundleName, userId);
              if admin.None? || appIndex != 0 then LifeState() == old(LifeState())
              else
                && Removal(old(Store()), Store(), old(LifeState()), LifeState(), dels, admin.value, userId, ok, true,
                           HostPlugins())
                && (Smooth(old(Store()), Whom(old(RosterState()).admins, admin.value), HostPlugins(), f) ==>
                      ok == (!IsAllowedAcrossAccountSetPolicy(admin.value.adminType) || userId == DEFAULT_USER_ID))
    {
      dels, ok := [], true;
      if appIndex != 0 { return; }
      var admin := adminMgr.GetAdminByPkgName(bundleName, userId);
      if admin.None? { return; }
      ok, dels := RemovePackage(admin.value, userId, f);
    }

    /** The three removals of the event, and its look at the flag, whether the removal succeeded or not. */
    method RemovePackage(admin: AdminInfo, userId: int, f: Faults)
      returns (ghost ok: bool, ghost dels: seq<(int, string)>)
      requires Valid() && StoreGood(Store())
      modifies this`edmEnable, pluginMgr.policyMgr.Repr(), adminMgr.container, adminMgr.storage
      ensures Valid() && fresh(pluginMgr.policyMgr.Managers() - old(pluginMgr.policyMgr.Managers()))
      ensures Removal(old(Store()), Store(), old(LifeState()), LifeState(), dels, admin, userId, ok, true,
                      HostPlugins())
      ensures ok ==> !IsAllowedAcrossAccountSetPolicy(admin.adminType) || userId == DEFAULT_USER_ID
      ensures Smooth(old(Store()), Whom(old(RosterState()).admins, admin), HostPlugins(), f) ==>
                ok == (!IsAllowedAcrossAccountSetPolicy(admin.adminType) || userId == DEFAULT_USER_ID)
    {
      dels, ok := [], false;
      NothingMoved(Store(), RosterState(), Whom(RosterState().admins, admin), HostPlugins());
      if !IsAllowedAcrossAccountSetPolicy(admin.adminType) || userId == DEFAULT_USER_ID {
        var removed;
        removed, dels := RemoveByType(admin, userId, f);
        ok := removed;
      }
      LookAtFlag();
    }

    /** `HandleKeepPolicy`: the administrator is renamed, then its policies, then its name inside the uninstall policy;
        when the policies cannot be renamed, the administrator is renamed back. */
    method HandleKeepPolicy(oldInfo: AdminInfo, newInfo: AdminInfo, io: ReplaceIo, policyIo: PolicyIo, back: ReplaceIo)
      returns (ok: bool)
      requires Valid()
      modifies pluginMgr.policyMgr.Repr(), adminMgr.container, adminMgr.storage
      ensures Valid() && fresh(pluginMgr.policyMgr.Managers() - old(pluginMgr.policyMgr.Managers()))
      ensures RosterState() ==
              KeepPolicyRoster(old(RosterState()), oldInfo, newInfo, policyIo.renamed == Done, io, back)
      ensures ok == (AdminRenamed(old(RosterState()), oldInfo, newInfo, io) &&
                     KeepOk(old(Store()), oldInfo.packageName, newInfo.packageName, policyIo))
      ensures Store() == KeepPolicyStore(old(Store()), old(RosterState()), oldInfo, newInfo, io, policyIo)
    {
      ghost var before := RosterState();
      var renamed := RenameAdmin(oldInfo.packageName, newInfo, io);
      ghost var between := RosterState();
      ok := false;
      if renamed == AdminOk { ok := RenamePoliciesOrBack(oldInfo, newInfo, policyIo, back); }
      KeepPolicyIs(before, between, RosterState(), renamed, oldInfo, newInfo, policyIo.renamed == Done, io, back);
    }

    /** The policies are not touched. */
    method RenameAdmin(packageName: string, info: AdminInfo, io: ReplaceIo) returns (err: AdminErr)
      modifies adminMgr.container, adminMgr.storage
      ensures RosterResult(RosterState(), err) ==
              ReplaceSuperAdminSpec(old(RosterState()), packageName, info, io.available, io.renamed, io.replaced)
      ensures Valid() == old(Valid()) && Store() == old(Store())
      ensures pluginMgr.policyMgr.Managers() == old(pluginMgr.policyMgr.Managers())
    {
      err := adminMgr.ReplaceSuperAdminByPackageName(packageName, info, io.available, io.renamed, io.replaced);
    }

    method RenamePoliciesOrBack(oldInfo: AdminInfo, newInfo: AdminInfo, policyIo: PolicyIo, back: ReplaceIo)
      returns (ok: bool)
      requires Valid()
      modifies pluginMgr.policyMgr.Repr(), adminMgr.container, adminMgr.storage
      ensures Valid() && fresh(pluginMgr.policyMgr.Managers() - old(pluginMgr.policyMgr.Managers()))
      ensures ok == KeepOk(old(Store()), oldInfo.packageName, newInfo.packageName, policyIo)
      ensures RosterState() ==
              if policyIo.renamed == Done then old(RosterState())
              else ReplaceSuperAdminSpec(old(RosterState()), newInfo.packageName, oldInfo, back.available, back.renamed,
                                         back.replaced).roster
      ensures Store() == KeepStore(old(Store()), oldInfo.packageName, newInfo.packageName, policyIo)
    {
      ghost var roster := RosterState();
      var renamed;
      renamed, ok := KeepPolicies(oldInfo.packageName, newInfo.packageName, policyIo);
      assert RosterState() == roster;
      if !renamed { var _ := RenameAdmin(newInfo.packageName, oldInfo, back); }
    }

    /** The texts of the uninstall policy are read before the renaming and written after it. */
    method KeepPolicies(admin: string, newAdmin: string, policyIo: PolicyIo) returns (renamed: bool, ok: bool)
      requires Valid()
      modifies pluginMgr.policyMgr.Repr()
      ensures Valid() && fresh(pluginMgr.policyMgr.Managers() - old(pluginMgr.policyMgr.Managers()))
      ensures renamed == (policyIo.renamed == Done) && ok == KeepOk(old(Store()), admin, newAdmin, policyIo)
      ensures Store() == KeepStore(old(Store()), admin, newAdmin, policyIo)
    {
      ghost var s := Store();
      var own, merged;
      own, merged, renamed := ReadThenRename(admin, newAdmin, policyIo.renamed);
      ghost var between := Store();
      ok := renamed;
      if renamed { ok := RewriteOwn(own, merged, admin, newAdmin, policyIo); }
      KeptAsAsked(s, between, Store(), own, merged, admin, newAdmin, policyIo, ok);
    }

    method ReadThenRename(admin: string, newAdmin: string, io: Outcome)
      returns (own: string, merged: string, renamed: bool)
      requires Valid()
      modifies pluginMgr.policyMgr.Repr()
      ensures Valid() && fresh(pluginMgr.policyMgr.Managers() - old(pluginMgr.policyMgr.Managers()))
      ensures renamed == (io == Done)
      ensures own == Uninstall(old(Store()), admin) && merged == Uninstall(old(Store()), "")
      ensures Store() == ReplaceAllSpec(old(Store()), DEFAULT_USER_ID, admin, newAdmin, LOAD_OK, io).state
    {
      LoadedRenames(Store(), admin, newAdmin, io);
      own, merged := UninstallTexts(admin);
      renamed := RenamePolicies(admin, newAdmin, io);
    }

    /** The rules of the bundle service are changed before the texts. */
    method RewriteOwn(own: string, merged: string, admin: string, newAdmin: string, io: PolicyIo) returns (ok: bool)
      requires Valid()
      modifies pluginMgr.policyMgr.Repr()
      ensures Valid() && fresh(pluginMgr.policyMgr.Managers() - old(pluginMgr.policyMgr.Managers()))
      ensures OwnRewritten(old(Store()), Store(), own, merged, admin, newAdmin, io, ok)
    {
      if own == "" || FindText(own, admin).None? { return true; }
      if !io.ruleDropped || !io.ruleAdded { return false; }
      ok := RewriteTexts(own, merged, admin, newAdmin, io);
    }

    method UninstallTexts(admin: string) returns (own: string, merged: string)
      requires Valid()
      modifies pluginMgr.policyMgr
      ensures Valid() && fresh(pluginMgr.policyMgr.Managers() - old(pluginMgr.policyMgr.Managers()))
      ensures Store() == Loaded(old(Store()), DEFAULT_USER_ID, LOAD_OK)
      ensures own == Uninstall(old(Store()), admin) && merged == Uninstall(old(Store()), "")
    {
      var found := pluginMgr.policyMgr.GetPolicy(admin, UNINSTALL_POLICY, DEFAULT_USER_ID, LOAD_OK);
      var combined := pluginMgr.policyMgr.GetPolicy("", UNINSTALL_POLICY, DEFAULT_USER_ID, LOAD_OK);
      return OrEmpty(found), OrEmpty(combined);
    }

    method RenamePolicies(admin: string, newAdmin: string, io: Outcome) returns (ok: bool)
      requires Valid()
      modifies pluginMgr.policyMgr.Repr()
      ensures Valid() && fresh(pluginMgr.policyMgr.Managers() - old(pluginMgr.policyMgr.Managers()))
      ensures ok == (io == Done)
      ensures Store() == ReplaceAllSpec(old(Store()), DEFAULT_USER_ID, admin, newAdmin, LOAD_OK, io).state
    {
      var err := pluginMgr.policyMgr.ReplaceAllPolicy(DEFAULT_USER_ID, admin, newAdmin, LOAD_OK, io);
      return err == ErrOk;
    }

    method RewriteTexts(own: string, merged: string, admin: string, newAdmin: string, io: PolicyIo) returns (ok: bool)
      requires Valid()
      modifies pluginMgr.policyMgr.Repr()
      ensures Valid() && fresh(pluginMgr.policyMgr.Managers() - old(pluginMgr.policyMgr.Managers()))
      ensures var r := Rewritten(old(Store()), own, merged, admin, newAdmin, io);
              Store() == r.state && ok == (r.err == ErrOk)
    {
      var err := pluginMgr.policyMgr.SetPolicy(newAdmin, UNINSTALL_POLICY, Rewrite(own, admin, newAdmin),
                                               Rewrite(merged, admin, newAdmin), DEFAULT_USER_ID, LOAD_OK, io.combined,
                                               io.own);
      return err == ErrOk;
    }

    method GetSuperAdminInfo() returns (admin: Option<AdminInfo>)
      ensures admin == GetSuperAdmin(adminMgr.container.admins)
    {
      var _, list := adminMgr.container.GetAdminCopyByUserId(DEFAULT_USER_ID);
      return FindType(list, ENT);
    }

    /** The checks of a replacement, in their order, and the administrator found by name. */
    method CheckReplaceAdmins(oldAdmin: Element, newAdmin: Element, env: ReplaceEnv)
      returns (err: LifeErr, replaced: Option<AdminInfo>)
      ensures err == ReplaceCheck(adminMgr.container.admins, oldAdmin, newAdmin, env)
      ensures err == LifeOk ==>
              replaced == AdminByPkgName(adminMgr.container.admins, oldAdmin.bundleName, DEFAULT_USER_ID)
      ensures err == LifeOk ==> replaced.Some? && replaced.value.packageName == oldAdmin.bundleName
    {
      replaced := None;
      if env.maintenance { return ReplaceAdminFailed, None; }
      if !env.permitted { return PermissionDenied, None; }
      var found := GetSuperAdminInfo();
      if found.None? || found.value.packageName != oldAdmin.bundleName ||
         found.value.className != oldAdmin.abilityName {
        return AdminInactive, None;
      }
      if !env.abilityFound { return ComponentInvalid, None; }
      var verified := VerifyEnableAdminCondition(newAdmin, ENT, DEFAULT_USER_ID, false, false);
      if !verified { return ReplaceAdminFailed, None; }
      if env.permission.None? { return Abnormal, None; }
      if found.value.runningMode == MULTI_USER { return ReplaceAdminFailed, None; }
      replaced := adminMgr.GetAdminByPkgName(oldAdmin.bundleName, DEFAULT_USER_ID);
      NamedAsAsked(adminMgr.container.admins, oldAdmin.bundleName);
      err := if replaced.None? then AdminInactive else LifeOk;
    }

    /** A replacement that keeps the policies: its outcome does not matter to the caller or to the flag. */
    method ReplaceKeepingPolicy(oldAdmin: Element, newAdmin: Element, env: ReplaceEnv,
                                io: ReplaceIo, policyIo: PolicyIo, back: ReplaceIo) returns (err: LifeErr)
      requires Valid()
      modifies this`edmEnable, pluginMgr.policyMgr.Repr(), adminMgr.container, adminMgr.storage
      ensures Valid() && fresh(pluginMgr.policyMgr.Managers() - old(pluginMgr.policyMgr.Managers()))
      ensures KeptAndReplaced(old(Store()), Store(), old(LifeState()), LifeState(), oldAdmin, newAdmin, env, io,
                              policyIo, back, err)
    {
      ghost var s, l := Store(), LifeState();
      var replaced;
      err, replaced := MayBeReplaced(oldAdmin, newAdmin, env);
      if err == LifeOk {
        KeepThenEnable(replaced.value, NewSuperAdmin(replaced.value, newAdmin, env.permission.value), io,
                       policyIo, back);
      }
      ReplaceKeepingIs(s, Store(), l, LifeState(), oldAdmin, newAdmin, env, io, policyIo, back, err);
    }

    method KeepThenEnable(oldInfo: AdminInfo, newInfo: AdminInfo, io: ReplaceIo, policyIo: PolicyIo, back: ReplaceIo)
      requires Valid()
      modifies this`edmEnable, pluginMgr.policyMgr.Repr(), adminMgr.container, adminMgr.storage
      ensures Valid() && fresh(pluginMgr.policyMgr.Managers() - old(pluginMgr.policyMgr.Managers()))
      ensures LifeState() ==
              Life(KeepPolicyRoster(old(RosterState()), oldInfo, newInfo, policyIo.renamed == Done, io, back), true)
      ensures Store() == KeepPolicyStore(old(Store()), old(RosterState()), oldInfo, newInfo, io, policyIo)
    {
      var _ := HandleKeepPolicy(oldInfo, newInfo, io, policyIo, back);
      edmEnable := true;
    }

    /** A replacement that removes the old administrator with its policies before the new one is saved. */
    method ReplaceRemovingPolicy(oldAdmin: Element, newAdmin: Element, env: ReplaceEnv, f: Faults,
                                 io: Outcome)
      returns (err: LifeErr, ghost dels: seq<(int, string)>, ghost removed: bool)
      requires Valid() && StoreGood(Store())
      modifies this`edmEnable, pluginMgr.policyMgr.Repr(), adminMgr.container, adminMgr.storage
      ensures Valid() && fresh(pluginMgr.policyMgr.Managers() - old(pluginMgr.policyMgr.Managers()))
      ensures RemovedAndReplaced(old(Store()), Store(), old(LifeState()), LifeState(), oldAdmin, newAdmin, env, dels,
                                 removed, io, err, HostPlugins())
      ensures SmoothReplacement(old(Store()), old(RosterState()).admins, oldAdmin, newAdmin, env, HostPlugins(), f) ==>
                removed
    {
      ghost var s, l := Store(), LifeState();
      dels, removed := [], false;
      var replaced;
      err, replaced := MayBeReplaced(oldAdmin, newAdmin, env);
      if err != LifeOk {
        NotReplaced(s, l, oldAdmin, newAdmin, env, io, err, HostPlugins());
        return;
      }
      err, dels, removed := RemoveAndReplace(oldAdmin, newAdmin, env, replaced.value, f, io);
    }

    /** The checks do not touch anything. */
    method MayBeReplaced(oldAdmin: Element, newAdmin: Element, env: ReplaceEnv)
      returns (err: LifeErr, replaced: Option<AdminInfo>)
      requires Valid()
      ensures Valid() && Store() == old(Store()) && LifeState() == old(LifeState())
      ensures err == ReplaceCheck(RosterState().admins, oldAdmin, newAdmin, env)
      ensures err == LifeOk ==> replaced == Some(ReplacedAdmin(RosterState().admins, oldAdmin))
    {
      err, replaced := CheckReplaceAdmins(oldAdmin, newAdmin, env);
    }

    method RemoveAndReplace(ghost oldAdmin: Element, newAdmin: Element, env: ReplaceEnv, replaced: AdminInfo, f: Faults,
                            io: Outcome)
      returns (err: LifeErr, ghost dels: seq<(int, string)>, ghost removed: bool)
      requires Valid() && StoreGood(Store()) && MayReplace(RosterState().admins, oldAdmin, newAdmin, env)
      requires replaced == ReplacedAdmin(RosterState().admins, oldAdmin)
      modifies this`edmEnable, pluginMgr.policyMgr.Repr(), adminMgr.container, adminMgr.storage
      ensures Valid() && fresh(pluginMgr.policyMgr.Managers() - old(pluginMgr.policyMgr.Managers()))
      ensures RemovedAndReplaced(old(Store()), Store(), old(LifeState()), LifeState(), oldAdmin, newAdmin, env, dels,
                                 removed, io, err, HostPlugins())
      ensures Smooth(old(Store()), Whom(old(RosterState()).admins, replaced), HostPlugins(), f) ==> removed
    {
      ghost var s, l := Store(), LifeState();
      err, dels, removed := RemoveThenSave(replaced, newAdmin, env.permission.value, f, io);
      ReplaceRemovingIs(s, Store(), l, LifeState(), oldAdmin, newAdmin, env, dels, removed, io, err, HostPlugins());
    }

    method RemoveThenSave(superAdmin: AdminInfo, newAdmin: Element, permissions: seq<string>, f: Faults, io: Outcome)
      returns (err: LifeErr, ghost dels: seq<(int, string)>, ghost removed: bool)
      requires Valid() && StoreGood(Store())
      modifies this`edmEnable, pluginMgr.policyMgr.Repr(), adminMgr.container, adminMgr.storage
      ensures Valid() && fresh(pluginMgr.policyMgr.Managers() - old(pluginMgr.policyMgr.Managers()))
      ensures RemovedThenSaved(old(LifeState()), LifeState(), dels, removed,
                               NewSuperAdmin(superAdmin, newAdmin, permissions), io, err)
      ensures Removal(old(Store()), Store(), old(LifeState()), AfterRemoval(old(LifeState()), dels, removed), dels,
                      superAdmin, DEFAULT_USER_ID, removed, removed, HostPlugins())
      ensures Smooth(old(Store()), Whom(old(RosterState()).admins, superAdmin), HostPlugins(), f) ==> removed
    {
      ghost var s, l := Store(), LifeState();
      var disabled;
      disabled, dels := DoDisableAdmin(superAdmin, DEFAULT_USER_ID, f);
      removed := disabled == LifeOk;
      ghost var s', after, plugins := Store(), LifeState(), HostPlugins();
      err := SaveWhenRemoved(disabled == LifeOk, NewSuperAdmin(superAdmin, newAdmin, permissions), io);
      assert Store() == s' && HostPlugins() == plugins;
      SavedAfterRemoval(s, s', l, after, LifeState(), dels, removed, superAdmin, newAdmin, permissions, io, err,
                        plugins);
    }

    method SaveWhenRemoved(removed: bool, info: AdminInfo, io: Outcome) returns (err: LifeErr)
      modifies this`edmEnable, adminMgr.container, adminMgr.storage
      ensures !removed ==> LifeState() == old(LifeState()) && err == ReplaceAdminFailed
      ensures removed ==>
                && LifeState() == SaveReplacementSpec(old(LifeState()), info, io)
                && err == if SetAdminValueSpec(old(RosterState()), DEFAULT_USER_ID, info, io).err == AdminOk then LifeOk
                          else ReplaceAdminFailed
      ensures Valid() == old(Valid()) && Store() == old(Store()) && HostPlugins() == old(HostPlugins())
      ensures pluginMgr.policyMgr.Managers() == old(pluginMgr.policyMgr.Managers())
    {
      err := ReplaceAdminFailed;
      if removed { err := SaveReplacement(info, io); }
    }

    method SaveReplacement(info: AdminInfo, io: Outcome) returns (err: LifeErr)
      modifies this`edmEnable, adminMgr.container, adminMgr.storage
      ensures LifeState() == SaveReplacementSpec(old(LifeState()), info, io)
      ensures err == if SetAdminValueSpec(old(RosterState()), DEFAULT_USER_ID, info, io).err == AdminOk then LifeOk
                     else ReplaceAdminFailed
      ensures Valid() == old(Valid()) && Store() == old(Store())
      ensures pluginMgr.policyMgr.Managers() == old(pluginMgr.policyMgr.Managers())
    {
      var saved := adminMgr.SetAdminValue(DEFAULT_USER_ID, info, io);
      if saved != AdminOk { return ReplaceAdminFailed; }
      edmEnable := true;
      return LifeOk;
    }
  }

  /** Whom the removal of an administrator may take away: itself, and with a super administrator its children. */
  function Whom(admins: Admins, admin: AdminInfo): set<string> {
    if admin.adminType == ENT then Victims(admins, admin.packageName) else {admin.packageName}
  }

  /** A removal of an administrator: only values and entries of these packages are dropped, the flag follows, and when
      it is done the administrator is gone, a super administrator's children with it, and what is left of their policies
      is what the plugins do not save: under every user for an administrator that works across accounts, when the
      managed users cover the owners, and under its own user otherwise. */
  ghost predicate Removal(s: ManagerState, s': ManagerState, l: Life, l': Life, dels: seq<(int, string)>,
                          admin: AdminInfo, userId: int, done: bool, checksFlag: bool, plugins: Plugins)
  {
    && Moved(s, s', l.roster, l'.roster, dels, Whom(l.roster.admins, admin), plugins)
    && l' == AfterRemoval(l, dels, checksFlag)
    && (done ==> RemovalDone(s, s', l.roster.admins, l'.roster.admins, admin, userId, plugins))
    && (!done ==> NotYetGone(l.roster.admins, dels, admin, userId))
  }

  /** The administrator's own entry is the last to go: it stays in a removal that fails. */
  predicate NotYetGone(admins: Admins, dels: seq<(int, string)>, admin: AdminInfo, userId: int) {
    if !IsAllowedAcrossAccountSetPolicy(admin.adminType) then (userId, admin.packageName) !in dels
    else if admin.adminType != ENT then (DEFAULT_USER_ID, admin.packageName) !in dels
    else
      LastStays(ChildrenOf(Copies(ListOf(admins, DEFAULT_USER_ID)), admin.packageName) + [admin.packageName], dels)
  }

  ghost predicate RemovalDone(s: ManagerState, s': ManagerState, admins: Admins, admins': Admins, admin: AdminInfo,
                              userId: int, plugins: Plugins)
  {
    if !IsAllowedAcrossAccountSetPolicy(admin.adminType)
    then
      && Absent(admins', userId, admin.packageName)
      && OnlyUnsavedLeft(s', userId, admin.packageName, plugins)
    else
      && Absent(admins', DEFAULT_USER_ID, admin.packageName)
      && (admin.adminType == ENT ==> NobodyLeft(admins', Whom(admins, admin), admin.packageName))
      && (UsersCovered(s) ==> RowsCleared(s, s', Whom(admins, admin), plugins))
  }

  /** The checks pass, and nothing stands in the way of removing the old administrator. */
  ghost predicate SmoothReplacement(s: ManagerState, admins: Admins, oldAdmin: Element, newAdmin: Element,
                                    env: ReplaceEnv, plugins: Plugins, f: Faults)
  {
    MayReplace(admins, oldAdmin, newAdmin, env) && Smooth(s, Whom(admins, ReplacedAdmin(admins, oldAdmin)), plugins, f)
  }

  predicate AdminRenamed(r: Roster, oldInfo: AdminInfo, newInfo: AdminInfo, io: ReplaceIo) {
    ReplaceSuperAdminSpec(r, oldInfo.packageName, newInfo, io.available, io.renamed, io.replaced).err == AdminOk
  }

  /** A delegation by a parent: the checks in order, the withdrawal when no policies are given, and the save. */
  ghost predicate Delegated(s: ManagerState, s': ManagerState, l: Life, l': Life, dels: seq<(int, string)>,
                            parent: string, bundleName: string, policies: seq<string>, currentUser: int,
                            permitted: bool, policiesCheck: LifeErr, bundleAllowed: bool,
                            permission: Option<seq<string>>, io: Outcome, err: LifeErr, plugins: Plugins)
  {
    var check := DelegateCheck(l.roster.admins, parent, bundleName, policies, currentUser, permitted);
    if check != LifeOk then err == check && s' == s && l' == l
    else if policies == [] then
      Withdrawn(s, s', l.roster, l'.roster, dels, bundleName, err, plugins) && l'.enabled == l.enabled
    else
      && s' == s
      && LifeResult(l', err) == DelegateSpec(l, parent, bundleName, policies, currentUser, permitted, policiesCheck,
                                             bundleAllowed, permission, io)
  }

  lemma DelegatedByWithdrawal(s: ManagerState, s': ManagerState, l: Life, l': Life, dels: seq<(int, string)>,
                              parent: string, bundleName: string, currentUser: int, permitted: bool,
                              policiesCheck: LifeErr, bundleAllowed: bool, permission: Option<seq<string>>,
                              io: Outcome, err: LifeErr, plugins: Plugins)
    requires DelegateCheck(l.roster.admins, parent, bundleName, [], currentUser, permitted) == LifeOk
    requires Withdrawn(s, s', l.roster, l'.roster, dels, bundleName, err, plugins) && l'.enabled == l.enabled
    ensures Delegated(s, s', l, l', dels, parent, bundleName, [], currentUser, permitted, policiesCheck, bundleAllowed,
                      permission, io, err, plugins)
  {
  }

  lemma LoadedRenames(s: ManagerState, admin: string, newAdmin: string, io: Outcome)
    ensures ReplaceAllSpec(Loaded(s, DEFAULT_USER_ID, LOAD_OK), DEFAULT_USER_ID, admin, newAdmin, LOAD_OK, io) ==
            ReplaceAllSpec(s, DEFAULT_USER_ID, admin, newAdmin, LOAD_OK, io)
  {
  }

  /** What the rewriting of these texts leaves and answers. */
  predicate OwnRewritten(s: ManagerState, s': ManagerState, own: string, merged: string, admin: string,
                         newAdmin: string, io: PolicyIo, ok: bool)
  {
    if own == "" || FindText(own, admin).None? then s' == s && ok
    else if !io.ruleDropped || !io.ruleAdded then s' == s && !ok
    else var r := Rewritten(s, own, merged, admin, newAdmin, io); s' == r.state && ok == (r.err == ErrOk)
  }

  lemma KeptAsAsked(s: ManagerState, between: ManagerState, s': ManagerState, own: string, merged: string,
                    admin: string, newAdmin: string, io: PolicyIo, ok: bool)
    requires between == ReplaceAllSpec(s, DEFAULT_USER_ID, admin, newAdmin, LOAD_OK, io.renamed).state
    requires own == Uninstall(s, admin) && merged == Uninstall(s, "")
    requires if io.renamed == Done then OwnRewritten(between, s', own, merged, admin, newAdmin, io, ok)
             else s' == between && !ok
    ensures s' == KeepStore(s, admin, newAdmin, io) && ok == KeepOk(s, admin, newAdmin, io)
  {
  }

  /** The policies of the default user are renamed after the administrator, and only then. */
  function KeepPolicyStore(s: ManagerState, r: Roster, oldInfo: AdminInfo, newInfo: AdminInfo, io: ReplaceIo,
                           policyIo: PolicyIo)
    : ManagerState
  {
    if AdminRenamed(r, oldInfo, newInfo, io)
    then KeepStore(s, oldInfo.packageName, newInfo.packageName, policyIo)
    else s
  }

  /** A delegation was withdrawn from the application, in part or, when there is no error, from the default user, with
      all it has stored under policies that the plugins save. */
  ghost predicate Withdrawn(s: ManagerState, s': ManagerState, r: Roster, r': Roster, dels: seq<(int, string)>,
                            bundleName: string, err: LifeErr, plugins: Plugins)
  {
    && Moved(s, s', r, r', dels, {bundleName}, plugins)
    && (err == LifeOk || err == RemovalFailed)
    && (err == LifeOk ==> Absent(r'.admins, DEFAULT_USER_ID, bundleName))
    && (err == LifeOk && UsersCovered(s) ==> RowsCleared(s, s', {bundleName}, plugins))
  }

  /** What saving after the removal answers and leaves. */
  predicate RemovedThenSaved(l: Life, l': Life, dels: seq<(int, string)>, removed: bool, info: AdminInfo, io: Outcome,
                             err: LifeErr)
  {
    var after := AfterRemoval(l, dels, removed);
    && l' == (if removed then SaveReplacementSpec(after, info, io) else after)
    && (err == LifeOk <==> removed && SetAdminValueSpec(after.roster, DEFAULT_USER_ID, info, io).err == AdminOk)
    && (err != LifeOk ==> err == ReplaceAdminFailed)
  }

  lemma SavedAfterRemoval(s: ManagerState, s': ManagerState, l: Life, after: Life, l': Life, dels: seq<(int, string)>,
                          removed: bool, superAdmin: AdminInfo, newAdmin: Element, permissions: seq<string>,
                          io: Outcome, err: LifeErr, plugins: Plugins)
    requires Removal(s, s', l, after, dels, superAdmin, DEFAULT_USER_ID, removed, removed, plugins)
    requires !removed ==> l' == after && err == ReplaceAdminFailed
    requires removed ==>
               var info := NewSuperAdmin(superAdmin, newAdmin, permissions);
               && l' == SaveReplacementSpec(after, info, io)
               && err == if SetAdminValueSpec(after.roster, DEFAULT_USER_ID, info, io).err == AdminOk then LifeOk
                         else ReplaceAdminFailed
    ensures RemovedThenSaved(l, l', dels, removed, NewSuperAdmin(superAdmin, newAdmin, permissions), io, err)
    ensures Removal(s, s', l, AfterRemoval(l, dels, removed), dels, superAdmin, DEFAULT_USER_ID, removed, removed,
                    plugins)
  {
  }

  /** A replacement that keeps the policies: the whole new roster, rows, flag and policies. */
  predicate KeptAndReplaced(s: ManagerState, s': ManagerState, l: Life, l': Life, oldAdmin: Element, newAdmin: Element,
                            env: ReplaceEnv, io: ReplaceIo, policyIo: PolicyIo, back: ReplaceIo, err: LifeErr)
  {
    && err == ReplaceCheck(l.roster.admins, oldAdmin, newAdmin, env)
    && l' == ReplaceKeepingSpec(l, oldAdmin, newAdmin, env, policyIo.renamed == Done, io, back)
    && if err != LifeOk then s' == s
       else
         var replaced := ReplacedAdmin(l.roster.admins, oldAdmin);
         s' == KeepPolicyStore(s, l.roster, replaced, NewSuperAdmin(replaced, newAdmin, env.permission.value), io,
                               policyIo)
  }

  /** A replacement that removes first: the whole new roster, rows and flag, and what the removal did. */
  ghost predicate RemovedAndReplaced(s: ManagerState, s': ManagerState, l: Life, l': Life, oldAdmin: Element,
                                     newAdmin: Element, env: ReplaceEnv, dels: seq<(int, string)>, removed: bool,
                                     io: Outcome, err: LifeErr, plugins: Plugins)
  {
    var check := ReplaceCheck(l.roster.admins, oldAdmin, newAdmin, env);
    if check != LifeOk then err == check && !removed && s' == s && l' == l
    else
      var replaced := ReplacedAdmin(l.roster.admins, oldAdmin);
      && RemovedThenSaved(l, l', dels, removed, NewSuperAdmin(replaced, newAdmin, env.permission.value), io, err)
      && Removal(s, s', l, AfterRemoval(l, dels, removed), dels, replaced, DEFAULT_USER_ID, removed, removed, plugins)
  }

  lemma NotReplaced(s: ManagerState, l: Life, oldAdmin: Element, newAdmin: Element, env: ReplaceEnv, io: Outcome,
                    err: LifeErr, plugins: Plugins)
    requires err == ReplaceCheck(l.roster.admins, oldAdmin, newAdmin, env) && err != LifeOk
    ensures RemovedAndReplaced(s, s, l, l, oldAdmin, newAdmin, env, [], false, io, err, plugins)
  {
  }

  lemma ReplaceRemovingIs(s: ManagerState, s': ManagerState, l: Life, l': Life, oldAdmin: Element, newAdmin: Element,
                          env: ReplaceEnv, dels: seq<(int, string)>, removed: bool, io: Outcome, err: LifeErr,
                          plugins: Plugins)
    requires MayReplace(l.roster.admins, oldAdmin, newAdmin, env)
    requires RemovedThenSaved(l, l', dels, removed,
                              NewSuperAdmin(ReplacedAdmin(l.roster.admins, oldAdmin), newAdmin, env.permission.value),
                              io, err)
    requires Removal(s, s', l, AfterRemoval(l, dels, removed), dels, ReplacedAdmin(l.roster.admins, oldAdmin),
                     DEFAULT_USER_ID, removed, removed, plugins)
    ensures RemovedAndReplaced(s, s', l, l', oldAdmin, newAdmin, env, dels, removed, io, err, plugins)
  {
  }

  /** Such a replacement is a step of the runs `RunSafe` and `RunFlag` are about. */
  lemma ReplaceRemovingFits(s: ManagerState, s': ManagerState, l: Life, l': Life, oldAdmin: Element, newAdmin: Element,
                            env: ReplaceEnv, dels: seq<(int, string)>, removed: bool, io: Outcome, err: LifeErr,
                            plugins: Plugins)
    requires RemovedAndReplaced(s, s', l, l', oldAdmin, newAdmin, env, dels, removed, io, err, plugins)
    ensures var op := ReplaceRemoving(oldAdmin, newAdmin, env, dels, removed, io);
            OpFits(l, op) && l' == LifeStep(l, op)
  {
    NamedAsAsked(l.roster.admins, oldAdmin.bundleName);
  }

  ghost predicate GoneOrUnsaved(s: ManagerState, user: int, admin: string, policy: string, plugins: Plugins) {
    Value(s, user, admin, policy).Some? ==> policy in plugins && !plugins[policy].needSave
  }

  ghost predicate AllGone(s: ManagerState, user: int, admin: string, policies: seq<string>, plugins: Plugins) {
    forall q :: q in policies ==> GoneOrUnsaved(s, user, admin, q, plugins)
  }

  ghost predicate ItemsGone(s: ManagerState, user: int, admin: string, items: Items, plugins: Plugins) {
    forall q :: q in items ==> GoneOrUnsaved(s, user, admin, q, plugins)
  }

  lemma GoneStays(s: ManagerState, s': ManagerState, user: int, admin: string, policies: seq<string>, plugins: Plugins)
    requires AllGone(s, user, admin, policies, plugins) && OnlyDropped(s, s', {admin}, plugins)
    ensures AllGone(s', user, admin, policies, plugins)
  {
    forall q | q in policies ensures GoneOrUnsaved(s', user, admin, q, plugins) {
      assert DroppedOrKept(s, s', {admin}, plugins, user, admin, q);
    }
  }

  lemma ItemsWereAll(s: ManagerState, s': ManagerState, user: int, admin: string, items: Items, plugins: Plugins)
    requires OnlyDropped(s, s', {admin}, plugins) && items == Under(CacheOf(s, user).admins, admin)
    requires ItemsGone(s', user, admin, items, plugins)
    ensures OnlyUnsavedLeft(s', user, admin, plugins)
  {
    forall q | Value(s', user, admin, q).Some? ensures q in plugins && !plugins[q].needSave {
      LeftWasThere(s, s', {admin}, plugins, user, admin, q);
      assert q in items && GoneOrUnsaved(s', user, admin, q, plugins);
    }
  }

  lemma FoundIs(s: ManagerState, user: int, admin: string, load: LoadIo, plugins: Plugins)
    requires StoreGood(s)
    ensures LoadsRight(s, user, load) ==>
              && StoreMoved(s, Loaded(s, user, load), {}, plugins)
              && Found(s, user, admin, load) == Under(CacheOf(s, user).admins, admin)
    ensures !LoadsRight(s, user, load) && load.admin != Done ==> Found(s, user, admin, load) == map[]
    ensures AllPlugged(s, {admin}, plugins) && (LoadsRight(s, user, load) || load.admin != Done) ==>
              Found(s, user, admin, load).Keys <= plugins.Keys
  {
    LoadedGood(s, user);
    if AllPlugged(s, {admin}, plugins) && (LoadsRight(s, user, load) || load.admin != Done) {
      PluggedFound(s, user, admin, load, plugins);
    }
  }

  /** One administrator's policies under one user were removed, in part or, with `ok`, all that the plugins save. */
  ghost predicate PoliciesRemoved(s: ManagerState, s': ManagerState, user: int, admin: string, plugins: Plugins,
                                  ok: bool)
  {
    StoreMoved(s, s', {admin}, plugins) && (ok ==> OnlyUnsavedLeft(s', user, admin, plugins))
  }

  lemma ItemsMoved(s: ManagerState, l: ManagerState, s': ManagerState, user: int, admin: string, items: Items,
                   plugins: Plugins, ok: bool)
    requires StoreMoved(s, l, {}, plugins) && StoreMoved(l, s', {admin}, plugins)
    requires items == Under(CacheOf(s, user).admins, admin)
    requires ok ==> ItemsGone(s', user, admin, items, plugins)
    ensures PoliciesRemoved(s, s', user, admin, plugins, ok)
  {
    StoreMovedTrans(s, l, s', {}, {admin}, plugins);
    if ok { ItemsWereAll(s, s', user, admin, items, plugins); }
  }

  /** The removal of one administrator's policies, or, after a first load that found none, its success over nothing. */
  ghost predicate RemovedOrMissed(s: ManagerState, s': ManagerState, user: int, admin: string, load: LoadIo,
                                  plugins: Plugins, ok: bool)
  {
    if LoadsRight(s, user, load) then PoliciesRemoved(s, s', user, admin, plugins, ok)
    else ok && s' == Loaded(s, user, load)
  }

  /** These policies were removed, in part or, with `ok`, all of them. */
  ghost predicate Taken(s: ManagerState, s': ManagerState, user: int, admin: string, items: Items, plugins: Plugins,
                        ok: bool)
  {
    if items == map[] then ok && s' == s
    else StoreMoved(s, s', {admin}, plugins) && (ok ==> ItemsGone(s', user, admin, items, plugins))
  }

  lemma ItemsTaken(s: ManagerState, l: ManagerState, s': ManagerState, user: int, admin: string, load: LoadIo,
                   items: Items, plugins: Plugins, ok: bool)
    requires LoadsRight(s, user, load) ==>
               StoreMoved(s, l, {}, plugins) && items == Under(CacheOf(s, user).admins, admin)
    requires !LoadsRight(s, user, load) ==> items == map[] && l == Loaded(s, user, load)
    requires Taken(l, s', user, admin, items, plugins, ok)
    ensures RemovedOrMissed(s, s', user, admin, load, plugins, ok)
  {
    if LoadsRight(s, user, load) { ItemsMoved(s, l, s', user, admin, items, plugins, ok); }
  }

  /** One administrator that works across accounts was removed, in part or, with `ok`, whole. */
  ghost predicate RemovedOne(s: ManagerState, s': ManagerState, r: Roster, r': Roster, dels: seq<(int, string)>,
                             admin: string, plugins: Plugins, ok: bool)
  {
    && Moved(s, s', r, r', dels, {admin}, plugins)
    && (ok ==> Absent(r'.admins, DEFAULT_USER_ID, admin))
    && (!ok ==> (DEFAULT_USER_ID, admin) !in dels)
    && (ok && UsersCovered(s) ==> RowsCleared(s, s', {admin}, plugins))
  }

  lemma OneRemoved(s: ManagerState, s': ManagerState, r: Roster, r': Roster, dels: seq<(int, string)>,
                   userIds: seq<int>, admin: string, plugins: Plugins, ok: bool)
    requires StoreGood(s) && forall u :: u in userIds <==> u in PolicyUserIds(s)
    requires Moved(s, s', r, r', dels, {admin}, plugins)
    requires ok ==> GoneUnderAll(s', r'.admins, userIds + [DEFAULT_USER_ID], admin, plugins)
    requires !ok && DEFAULT_USER_ID !in userIds ==> (DEFAULT_USER_ID, admin) !in dels
    ensures RemovedOne(s, s', r, r', dels, admin, plugins, ok)
  {
    if ok {
      assert GoneUnder(s', r'.admins, DEFAULT_USER_ID, admin, plugins);
      if UsersCovered(s) {
        assert (set x | x in [admin]) == {admin};
        RowsGone(s, s', userIds, [admin], r'.admins, plugins);
      }
    }
  }

  /** The last one keeps its entry under the default user, unless it stands before the end as well. */
  predicate LastStays(names: seq<string>, dels: seq<(int, string)>) {
    names != [] && names[|names| - 1] !in names[..|names| - 1] ==> (DEFAULT_USER_ID, names[|names| - 1]) !in dels
  }

  lemma LastIsLast(names: seq<string>, i: nat, before: seq<(int, string)>, dels: seq<(int, string)>)
    requires i < |names| && (forall d :: d in before ==> d.1 in names[..i])
    requires forall d :: d in dels ==> d in before || d.1 == names[i]
    requires (DEFAULT_USER_ID, names[i]) in dels ==> (DEFAULT_USER_ID, names[i]) in before
    ensures LastStays(names, dels)
  {
    var n := |names| - 1;
    assert forall x :: x in names[..i] ==> x in names[..n];
    if i < n { assert names[i] == names[..n][i]; }
  }

  /** A super administrator was removed with its children, in part or, with `ok`, whole. */
  ghost predicate Cascaded(s: ManagerState, s': ManagerState, r: Roster, r': Roster, dels: seq<(int, string)>,
                           name: string, plugins: Plugins, ok: bool)
  {
    var whom := Victims(r.admins, name);
    && Moved(s, s', r, r', dels, whom, plugins)
    && (ok ==> NobodyLeft(r'.admins, whom, name))
    && (!ok ==> LastStays(ChildrenOf(Copies(ListOf(r.admins, DEFAULT_USER_ID)), name) + [name], dels))
    && (ok && UsersCovered(s) ==> RowsCleared(s, s', whom, plugins))
  }

  lemma RowsGone(s: ManagerState, s': ManagerState, userIds: seq<int>, names: seq<string>, admins: Admins,
                 plugins: Plugins)
    requires StoreGood(s) && UsersCovered(s) && forall u :: u in userIds <==> u in PolicyUserIds(s)
    requires StoreMoved(s, s', (set x | x in names), plugins)
    requires AllGoneUnder(s', admins, userIds + [DEFAULT_USER_ID], names, plugins)
    ensures RowsCleared(s, s', (set x | x in names), plugins)
  {
    forall u, x | (u in PolicyUserIds(s) || u == DEFAULT_USER_ID) && x in names
      ensures OnlyUnsavedLeft(s', u, x, plugins)
    {
      assert u in userIds + [DEFAULT_USER_ID];
      assert GoneUnderAll(s', admins, userIds + [DEFAULT_USER_ID], x, plugins) && GoneUnder(s', admins, u, x, plugins);
    }
    NoRowsLeft(s, s', (set x | x in names), plugins);
  }

  /** What the removals of all the names amount to. */
  lemma CascadeDone(s: ManagerState, s': ManagerState, r: Roster, r': Roster, dels: seq<(int, string)>,
                    userIds: seq<int>, children: seq<string>, name: string, plugins: Plugins, ok: bool)
    requires StoreGood(s) && forall u :: u in userIds <==> u in PolicyUserIds(s)
    requires children == ChildrenOf(Copies(ListOf(r.admins, DEFAULT_USER_ID)), name)
    requires Moved(s, s', r, r', dels, Victims(r.admins, name), plugins)
    requires ok ==> AllGoneUnder(s', r'.admins, userIds + [DEFAULT_USER_ID], children + [name], plugins)
    requires !ok && DEFAULT_USER_ID !in userIds ==> LastStays(children + [name], dels)
    ensures Cascaded(s, s', r, r', dels, name, plugins, ok)
  {
    assert Victims(r.admins, name) == set x | x in children + [name];
    if ok {
      forall x | x in Victims(r.admins, name) ensures Absent(r'.admins, DEFAULT_USER_ID, x) {
        assert x in children + [name] && DEFAULT_USER_ID in userIds + [DEFAULT_USER_ID];
        assert GoneUnderAll(s', r'.admins, userIds + [DEFAULT_USER_ID], x, plugins);
        assert GoneUnder(s', r'.admins, DEFAULT_USER_ID, x, plugins);
      }
      NobodyIsLeft(r, r', dels, name);
      if UsersCovered(s) { RowsGone(s, s', userIds, children + [name], r'.admins, plugins); }
    }
  }

  lemma RoundMoves(s: ManagerState, t: ManagerState, s': ManagerState, r: Roster, q: Roster, r': Roster,
                   before: seq<(int, string)>, step: seq<(int, string)>, admin: string, done: seq<int>, userId: int,
                   plugins: Plugins, ok: bool)
    requires Moved(s, t, r, q, before, {admin}, plugins) && Moved(t, s', q, r', step, {admin}, plugins)
    requires GoneUnderAll(t, q.admins, done, admin, plugins)
    requires ok ==> GoneUnder(s', r'.admins, userId, admin, plugins)
    ensures Moved(s, s', r, r', before + step, {admin}, plugins)
    ensures ok ==> GoneUnderAll(s', r'.admins, done + [userId], admin, plugins)
  {
    MovedTrans(s, t, s', r, q, r', before, step, {admin}, {admin}, {admin}, plugins);
    GoneUnderAllStays(t, s', q, r', step, {admin}, done, admin, plugins);
  }

  lemma NameMoves(s: ManagerState, t: ManagerState, s': ManagerState, r: Roster, q: Roster, r': Roster,
                  before: seq<(int, string)>, step: seq<(int, string)>, done: seq<string>, name: string,
                  users: seq<int>, all: set<string>, plugins: Plugins, ok: bool)
    requires Moved(s, t, r, q, before, all, plugins) && Moved(t, s', q, r', step, {name}, plugins) && name in all
    requires AllGoneUnder(t, q.admins, users, done, plugins)
    requires ok ==> GoneUnderAll(s', r'.admins, users, name, plugins)
    ensures Moved(s, s', r, r', before + step, all, plugins)
    ensures ok ==> AllGoneUnder(s', r'.admins, users, done + [name], plugins)
  {
    MovedTrans(s, t, s', r, q, r', before, step, all, {name}, all, plugins);
    AllGoneUnderStays(t, s', q, r', step, {name}, users, done, plugins);
  }

  lemma NobodyIsAbsent(admins: Admins, whom: set<string>, name: string)
    requires NobodyLeft(admins, whom, name) && name in whom
    ensures Absent(admins, DEFAULT_USER_ID, name)
  {
    var list := ListOf(admins, DEFAULT_USER_ID);
    forall i | 0 <= i < |list| ensures list[i].packageName != name { assert list[i] in list; }
  }

  lemma KeepPolicyIs(r: Roster, between: Roster, after: Roster, renamed: AdminErr, oldInfo: AdminInfo,
                     newInfo: AdminInfo, policiesRenamed: bool, io: ReplaceIo, back: ReplaceIo)
    requires RosterResult(between, renamed) ==
             ReplaceSuperAdminSpec(r, oldInfo.packageName, newInfo, io.available, io.renamed, io.replaced)
    requires after == if renamed != AdminOk || policiesRenamed then between
                      else ReplaceSuperAdminSpec(between, newInfo.packageName, oldInfo, back.available, back.renamed,
                                                 back.replaced).roster
    ensures after == KeepPolicyRoster(r, oldInfo, newInfo, policiesRenamed, io, back)
  {
  }

  lemma ReplaceKeepingIs(s: ManagerState, s': ManagerState, l: Life, l': Life, oldAdmin: Element, newAdmin: Element,
                         env: ReplaceEnv, io: ReplaceIo, policyIo: PolicyIo, back: ReplaceIo, err: LifeErr)
    requires err == ReplaceCheck(l.roster.admins, oldAdmin, newAdmin, env)
    requires err != LifeOk ==> s' == s && l' == l
    requires err == LifeOk ==>
               var replaced := ReplacedAdmin(l.roster.admins, oldAdmin);
               var newInfo := NewSuperAdmin(replaced, newAdmin, env.permission.value);
               && l' == Life(KeepPolicyRoster(l.roster, replaced, newInfo, policyIo.renamed == Done, io, back), true)
               && s' == KeepPolicyStore(s, l.roster, replaced, newInfo, io, policyIo)
    ensures KeptAndReplaced(s, s', l, l', oldAdmin, newAdmin, env, io, policyIo, back, err)
  {
  }

  lemma NamedAsAsked(admins: Admins, name: string)
    ensures var found := AdminByPkgName(admins, name, DEFAULT_USER_ID); found.Some? ==> found.value.packageName == name
  {
    FindNamedIs(Copies(ListOf(admins, DEFAULT_USER_ID)), name);
  }
}
