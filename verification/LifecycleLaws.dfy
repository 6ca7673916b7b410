/** What the life-cycle calls leave: when each succeeds, and what a lookup finds afterwards of the administrator it is
    about. */
module LifecycleLaws {
  import opened PolicyModel
  import opened ManagerModel
  import opened AdminModel
  import opened LifecycleModel
  import opened LifecycleSafety
  import opened RosterSync
  import opened AdminLaws

  lemma SafeIsKnown(admins: Admins, u: int)
    requires Safe(admins)
    ensures Known(admins, u)
  {
    assert ListSafe(ListOf(admins, u), u) && ListSafe(ListOf(admins, DEFAULT_USER_ID), DEFAULT_USER_ID);
  }

  /** Some user has an administrator with this debug flag. */
  ghost predicate SomeWithFlag(admins: Admins, isDebug: bool) {
    exists u, i :: 0 <= i < |ListOf(admins, u)| && ListOf(admins, u)[i].isDebug == isDebug
  }

  lemma FlagIs(admins: Admins, isDebug: bool)
    ensures AnyDebug(admins, isDebug) <==> SomeWithFlag(admins, isDebug)
  {
    AnyDebugIs(admins, isDebug);
    if SomeWithFlag(admins, isDebug) {
      var u, i :| 0 <= i < |ListOf(admins, u)| && ListOf(admins, u)[i].isDebug == isDebug;
      assert !SameDebug(ListOf(admins, u), !isDebug);
    }
    if AnyDebug(admins, isDebug) {
      var u :| !SameDebug(ListOf(admins, u), !isDebug);
      var i :| 0 <= i < |ListOf(admins, u)| && ListOf(admins, u)[i].isDebug != !isDebug;
    }
  }

  ghost predicate OfficialSuperThere(admins: Admins) {
    exists i :: 0 <= i < |ListOf(admins, DEFAULT_USER_ID)| &&
      ListOf(admins, DEFAULT_USER_ID)[i].adminType == ENT && !ListOf(admins, DEFAULT_USER_ID)[i].isDebug
  }

  /** The default user has room for one more super or device administrator. */
  predicate RoomLeft(admins: Admins) {
    |DevicePlaces(ListOf(admins, DEFAULT_USER_ID))| < 10
  }

  // ----- Enabling -----

  /** All that enabling asks for. */
  ghost predicate Enables(admins: Admins, admin: Element, t: AdminType, userId: int, env: EnableEnv) {
    var found := AdminByPkgName(admins, admin.bundleName, userId);
    && (t == NORMAL || t == ENT || t == BYOD) && !env.maintenance && env.sourceAllowed && RoomLeft(admins)
    && (env.isDebug || env.permitted) && env.abilityFound && env.permission.Some?
    && (t == ENT ==> userId == DEFAULT_USER_ID) && (t != ENT ==> !env.securityMode)
    && !SomeWithFlag(admins, !env.isDebug)
    && (found.Some? ==> found.value.adminType == t && found.value.isDebug == env.isDebug &&
                        found.value.className == admin.abilityName)
    && (found.None? && t == ENT && !env.isDebug ==> !OfficialSuperThere(admins))
  }

  lemma EnableCheckIff(admins: Admins, admin: Element, t: AdminType, userId: int, env: EnableEnv)
    ensures EnableCheck(admins, admin, t, userId, env) == LifeOk <==> Enables(admins, admin, t, userId, env)
  {
    CountIs(ListOf(admins, DEFAULT_USER_ID));
    FlagIs(admins, !env.isDebug);
    SuperThereIs(admins);
  }

  lemma SuperThereIs(admins: Admins)
    ensures IsSuperAdminExist(admins) <==> OfficialSuperThere(admins)
  {
    var list := ListOf(admins, DEFAULT_USER_ID);
    if i :| 0 <= i < |list| && list[i].adminType == ENT && !list[i].isDebug { assert IsSuperAdminExist(admins); }
  }

  /** The user an administrator of this type is kept under. */
  function KeptUnder(t: AdminType, userId: int): int {
    if t == ENT || t == NORMAL then DEFAULT_USER_ID else userId
  }

  /** Enabling succeeds exactly when all it asks for holds and the row is written; then the flag is on and the lookup
      finds the administrator with ability, enterprise information and permissions of the call, of the type and debug
      mode of the call when it is new. A call that is refused changes nothing. */
  lemma EnableLeaves(l: Life, admin: Element, entName: string, entDesc: string, t: AdminType, userId: int,
                     source: EnableSource, env: EnableEnv, io: Outcome)
    requires Safe(l.roster.admins)
    ensures var r := EnableSpec(l, admin, entName, entDesc, t, userId, source, env, io);
            var u := KeptUnder(t, userId);
            && (r.err == LifeOk <==> Enables(l.roster.admins, admin, t, userId, env) && io == Done)
            && (r.err != LifeOk ==> r.life == l)
            && (r.err == LifeOk ==>
                  && r.life.enabled
                  && (Shadowed(l.roster.admins, u, admin.bundleName) ||
                      EnabledEntry(AdminByPkgName(l.roster.admins, admin.bundleName, u),
                                   AdminByPkgName(r.life.roster.admins, admin.bundleName, u), admin, entName,
                                   entDesc, t, source, env)))
  {
    EnableCheckIff(l.roster.admins, admin, t, userId, env);
    SafeIsKnown(l.roster.admins, KeptUnder(t, userId));
    if Enables(l.roster.admins, admin, t, userId, env) {
      var item := EnabledInfo(admin, entName, entDesc, t, source, env.isDebug, env.permission.value);
      SavedIsFound(l.roster, KeptUnder(t, userId), item);
    }
  }

  predicate EnabledEntry(was: Option<AdminInfo>, now: Option<AdminInfo>, admin: Element, entName: string,
                         entDesc: string, t: AdminType, source: EnableSource, env: EnableEnv)
  {
    && now.Some? && env.permission.Some?
    && now.value.packageName == admin.bundleName && now.value.className == admin.abilityName
    && now.value.entName == entName && now.value.entDesc == entDesc && now.value.permission == env.permission.value
    && now.value.runningMode == DEFAULT
    && (was.None? ==> now.value.adminType == t && now.value.isDebug == env.isDebug && now.value.parentAdminName == "" &&
                      now.value.enableSource == source && now.value.managedEvents == [])
    && (was.Some? ==> SameKind(now.value, was.value))
  }

  /** A super administrator enables a device administrator: it succeeds exactly when the caller is one, there is room,
      the answers allow it, and the name is free or already a device administrator's; a new one is found with the
      caller's debug mode. */
  lemma EnableDeviceLeaves(l: Life, caller: string, admin: Element, permitted: bool, abilityFound: bool,
                           permission: seq<string>, io: Outcome)
    requires Safe(l.roster.admins)
    ensures var r := EnableDeviceSpec(l, caller, admin, permitted, abilityFound, permission, io);
            var asker, was := AdminByPkgName(l.roster.admins, caller, DEFAULT_USER_ID),
                           AdminByPkgName(l.roster.admins, admin.bundleName, DEFAULT_USER_ID);
            var now := AdminByPkgName(r.life.roster.admins, admin.bundleName, DEFAULT_USER_ID);
            && (r.err == LifeOk <==>
                && asker.Some? && asker.value.adminType == ENT && RoomLeft(l.roster.admins) && permitted && abilityFound
                && (if was.Some? then was.value.adminType == NORMAL else io == Done))
            && (r.err != LifeOk || was.Some? ==> r.life == l)
            && (r.err == LifeOk && was.None? ==>
                  && r.life.enabled && now.Some? && now.value.packageName == admin.bundleName
                  && now.value.className == admin.abilityName && now.value.permission == permission
                  && now.value.adminType == NORMAL && now.value.isDebug == asker.value.isDebug
                  && now.value.enableSource == SUPER_ADMIN && now.value.parentAdminName == "")
  {
    CountIs(ListOf(l.roster.admins, DEFAULT_USER_ID));
    SafeIsKnown(l.roster.admins, DEFAULT_USER_ID);
    var asker := AdminByPkgName(l.roster.admins, caller, DEFAULT_USER_ID);
    if asker.Some? && AdminByPkgName(l.roster.admins, admin.bundleName, DEFAULT_USER_ID).None? {
      SavedByDefault(l.roster,
                     NO_INFO.(packageName := admin.bundleName, className := admin.abilityName, permission := permission,
                              adminType := NORMAL, isDebug := asker.value.isDebug, enableSource := SUPER_ADMIN));
    }
  }

  // ----- Authorising and delegating -----

  /** Authorising succeeds exactly when a super administrator asks, the answers allow it, the name is free or a sub
      super administrator's, and the row is written; otherwise nothing changes. */
  lemma AuthorizeSucceedsIff(l: Life, admin: string, bundleName: string, currentUser: int, permitted: bool,
                             permission: Option<seq<string>>, abilityName: string, io: Outcome)
    ensures var r := AuthorizeSpec(l, admin, bundleName, currentUser, permitted, permission, abilityName, io);
            var asker, seen := AdminByPkgName(l.roster.admins, admin, currentUser),
                               AdminByPkgName(l.roster.admins, bundleName, currentUser);
            && (r.err == LifeOk <==>
                && asker.Some? && asker.value.adminType == ENT && permitted && permission.Some? && io == Done
                && (seen.Some? ==> seen.value.adminType == SUB_SUPER_ADMIN))
            && r.life.enabled == l.enabled && (r.err != LifeOk ==> r.life == l)
  {
  }

  /** Then it is found under the default user with ability and permissions of the call; a new one as a sub super
      administrator under the one that asked, in its debug mode. */
  lemma AuthorizeLeaves(l: Life, admin: string, bundleName: string, currentUser: int, permitted: bool,
                        permission: Option<seq<string>>, abilityName: string, io: Outcome)
    requires Safe(l.roster.admins)
    requires AuthorizeSpec(l, admin, bundleName, currentUser, permitted, permission, abilityName, io).err == LifeOk
    ensures var l' := AuthorizeSpec(l, admin, bundleName, currentUser, permitted, permission, abilityName, io).life;
            var asker := AdminByPkgName(l.roster.admins, admin, currentUser);
            var was, now := AdminByPkgName(l.roster.admins, bundleName, DEFAULT_USER_ID),
                            AdminByPkgName(l'.roster.admins, bundleName, DEFAULT_USER_ID);
            && now.Some? && asker.Some? && permission.Some? && now.value.packageName == bundleName
            && now.value.className == abilityName && now.value.permission == permission.value
            && (was.None? ==> now.value.adminType == SUB_SUPER_ADMIN && now.value.parentAdminName == admin &&
                              now.value.isDebug == asker.value.isDebug)
            && (was.Some? ==> SameKind(now.value, was.value))
  {
    SafeIsKnown(l.roster.admins, DEFAULT_USER_ID);
    AuthorizeSucceedsIff(l, admin, bundleName, currentUser, permitted, permission, abilityName, io);
    SavedByDefault(l.roster,
                   NO_INFO.(packageName := bundleName, className := abilityName, permission := permission.value,
                            parentAdminName := admin, adminType := SUB_SUPER_ADMIN,
                            isDebug := AdminByPkgName(l.roster.admins, admin, currentUser).value.isDebug));
  }

  /** Delegating by a parent succeeds exactly when at most 200 policies are delegated by a super administrator to
      another application, the answers allow it, and the row is written; otherwise nothing changes. */
  lemma DelegateSucceedsIff(l: Life, parent: string, bundleName: string, policies: seq<string>, currentUser: int,
                            permitted: bool, policiesCheck: LifeErr, bundleAllowed: bool,
                            permission: Option<seq<string>>, io: Outcome)
    requires policies != []
    ensures var r := DelegateSpec(l, parent, bundleName, policies, currentUser, permitted, policiesCheck, bundleAllowed,
                                  permission, io);
            var asker := AdminByPkgName(l.roster.admins, parent, currentUser);
            && (r.err == LifeOk <==>
                && |policies| <= 200 && asker.Some? && asker.value.adminType == ENT && permitted && parent != bundleName
                && policiesCheck == LifeOk && bundleAllowed && permission.Some? && io == Done)
            && r.life.enabled == l.enabled && (r.err != LifeOk ==> r.life == l)
  {
  }

  /** Then the application is found with these policies and permissions, unless the user sees another one of the name; a
      new one as a virtual administrator under that parent, in its debug mode. */
  lemma DelegateLeaves(l: Life, parent: string, bundleName: string, policies: seq<string>, currentUser: int,
                       permitted: bool, policiesCheck: LifeErr, bundleAllowed: bool, permission: Option<seq<string>>,
                       io: Outcome)
    requires Safe(l.roster.admins) && policies != [] && !Shadowed(l.roster.admins, currentUser, bundleName)
    requires DelegateSpec(l, parent, bundleName, policies, currentUser, permitted, policiesCheck, bundleAllowed,
                          permission, io).err == LifeOk
    ensures var l' := DelegateSpec(l, parent, bundleName, policies, currentUser, permitted, policiesCheck,
                                   bundleAllowed, permission, io).life;
            var asker, was := AdminByPkgName(l.roster.admins, parent, currentUser),
                              AdminByPkgName(l.roster.admins, bundleName, currentUser);
            var now := AdminByPkgName(l'.roster.admins, bundleName, currentUser);
            && now.Some? && asker.Some? && permission.Some? && now.value.packageName == bundleName
            && now.value.permission == permission.value
            && (now.value.adminType != BYOD ==> now.value.accessiblePolicies == policies)
            && (was.None? ==> now.value.adminType == VIRTUAL_ADMIN && now.value.parentAdminName == parent &&
                              now.value.isDebug == asker.value.isDebug)
            && (was.Some? ==> SameKind(now.value, was.value))
  {
    SafeIsKnown(l.roster.admins, currentUser);
    DelegateSucceedsIff(l, parent, bundleName, policies, currentUser, permitted, policiesCheck, bundleAllowed,
                        permission, io);
    SavedIsFound(l.roster, currentUser,
                 DelegatedInfo(bundleName, permission.value, parent, policies,
                               AdminByPkgName(l.roster.admins, parent, currentUser).value.isDebug));
  }

  /** Whom the default user has for all accounts every user sees. */
  lemma SeenByAll(admins: Admins, p: string, u: int)
    requires Known(admins, u)
    requires var e := AdminByPkgName(admins, p, DEFAULT_USER_ID); e.Some? && WorksAcross(e.value.adminType)
    ensures AdminByPkgName(admins, p, u) == AdminByPkgName(admins, p, DEFAULT_USER_ID)
    ensures u != DEFAULT_USER_ID ==> Shadowed(admins, u, p)
  {
    LookupFinds(admins, p, DEFAULT_USER_ID);
    LookupFinds(admins, p, u);
    var shared := ListOf(admins, DEFAULT_USER_ID);
    var k: nat :| FirstNamed(shared, p, k);
    assert FirstAcross(shared, p, k);
  }

  /** A super administrator delegates policies to an application under the default user, and then others for another
      user. The second delegation succeeds too, but both users find the application with the first policies. */
  lemma DelegatedAgainElsewhere(l: Life, parent: string, bundleName: string, first: seq<string>, second: seq<string>,
                                u: int, permission: seq<string>)
    requires Safe(l.roster.admins) && 0 < |first| <= 200 && 0 < |second| <= 200 && parent != bundleName
    requires u != DEFAULT_USER_ID && AdminByPkgName(l.roster.admins, bundleName, DEFAULT_USER_ID).None?
    requires var e := AdminByPkgName(l.roster.admins, parent, DEFAULT_USER_ID); e.Some? && e.value.adminType == ENT
    ensures var one := DelegateSpec(l, parent, bundleName, first, DEFAULT_USER_ID, true, LifeOk, true, Some(permission),
                                    Done);
            var two := DelegateSpec(one.life, parent, bundleName, second, u, true, LifeOk, true, Some(permission),
                                    Done);
            var found := AdminByPkgName(two.life.roster.admins, bundleName, u);
            && one.err == LifeOk && two.err == LifeOk
            && found.Some? && found.value.accessiblePolicies == first
            && AdminByPkgName(two.life.roster.admins, bundleName, DEFAULT_USER_ID) == found
  {
    var one := DelegateSpec(l, parent, bundleName, first, DEFAULT_USER_ID, true, LifeOk, true, Some(permission), Done);
    var once := one.life.roster;
    DelegateLeaves(l, parent, bundleName, first, DEFAULT_USER_ID, true, LifeOk, true, Some(permission), Done);
    DelegateSafe(l, parent, bundleName, first, DEFAULT_USER_ID, true, LifeOk, true, Some(permission), Done);
    var item := DelegatedInfo(bundleName, permission, parent, first,
                              AdminByPkgName(l.roster.admins, parent, DEFAULT_USER_ID).value.isDebug);
    SafeIsKnown(once.admins, u);
    OtherStaysFound(l.roster, item, parent);
    SeenByAll(once.admins, parent, u);
    SeenByAll(once.admins, bundleName, u);
    var again := DelegatedInfo(bundleName, permission, parent, second,
                               AdminByPkgName(once.admins, parent, u).value.isDebug);
    SavedIsFound(once, u, again);
    SavedFrameDefault(once, u, again);
  }

  /** Saving one administrator does not change who is found by another name. */
  lemma OtherStaysFound(r: Roster, item: AdminInfo, other: string)
    requires Known(r.admins, DEFAULT_USER_ID) && item.adminType != UNKNOWN && other != item.packageName
    requires AdminByPkgName(r.admins, other, DEFAULT_USER_ID).Some?
    ensures AdminByPkgName(SetAdminValueSpec(r, DEFAULT_USER_ID, item, Done).roster.admins, other, DEFAULT_USER_ID) ==
            AdminByPkgName(r.admins, other, DEFAULT_USER_ID)
  {
    var admins' := SetAdminValueSpec(r, DEFAULT_USER_ID, item, Done).roster.admins;
    var list := ListOf(r.admins, DEFAULT_USER_ID);
    LookupFinds(r.admins, other, DEFAULT_USER_ID);
    var k: nat :| FirstNamed(list, other, k);
    forall j | 0 <= j < |list| ensures ListOf(admins', DEFAULT_USER_ID)[j].packageName == list[j].packageName {
      SavedFrame(r, DEFAULT_USER_ID, item, Done, j);
    }
    SavedFrame(r, DEFAULT_USER_ID, item, Done, k);
    assert FirstNamed(ListOf(admins', DEFAULT_USER_ID), other, k);
    LookupFinds(admins', other, DEFAULT_USER_ID);
  }

  lemma SavedFrameDefault(r: Roster, u: int, item: AdminInfo)
    requires u != DEFAULT_USER_ID
    ensures AdminByPkgName(SetAdminValueSpec(r, u, item, Done).roster.admins, item.packageName, DEFAULT_USER_ID) ==
            AdminByPkgName(r.admins, item.packageName, DEFAULT_USER_ID)
  {
  }

  /** The delegation without a parent succeeds exactly when the application is no administrator yet, the answers allow
      it and the row is written; it turns the flag on once the answers allow it, whether the row is written or not. */
  lemma DelegateDirectSucceedsIff(l: Life, bundleName: string, policies: seq<string>, userId: int, permitted: bool,
                                  policiesAllowed: bool, bundleAllowed: bool, caller: Option<string>,
                                  permission: Option<seq<string>>, io: Outcome)
    ensures var r := DelegateDirectSpec(l, bundleName, policies, userId, permitted, policiesAllowed,
                                        bundleAllowed, caller, permission, io);
            var allowed := permitted && |policies| <= 200 && policiesAllowed && bundleAllowed && caller.Some? &&
                           permission.Some? && AdminByPkgName(l.roster.admins, bundleName, userId).None?;
            && (r.err == LifeOk <==> allowed && io == Done)
            && r.life.enabled == (l.enabled || allowed) && (r.err != LifeOk ==> r.life.roster == l.roster)
  {
  }

  /** Then the application is found as an official virtual administrator under the caller, with all policies when it was
      given the one that stands for all. */
  lemma DelegateDirectLeaves(l: Life, bundleName: string, policies: seq<string>, userId: int, permitted: bool,
                             policiesAllowed: bool, bundleAllowed: bool, caller: Option<string>,
                             permission: Option<seq<string>>, io: Outcome)
    requires Safe(l.roster.admins)
    requires DelegateDirectSpec(l, bundleName, policies, userId, permitted, policiesAllowed, bundleAllowed, caller,
                                permission, io).err == LifeOk
    ensures var l' := DelegateDirectSpec(l, bundleName, policies, userId, permitted, policiesAllowed,
                                         bundleAllowed, caller, permission, io).life;
            var now := AdminByPkgName(l'.roster.admins, bundleName, userId);
            && now.Some? && permission.Some? && caller.Some? && now.value.packageName == bundleName
            && now.value.permission == permission.value && now.value.adminType == VIRTUAL_ADMIN && !now.value.isDebug
            && now.value.parentAdminName == caller.value
            && now.value.accessiblePolicies == if "allow_all" in policies then ["allow_all"] else policies
  {
    SafeIsKnown(l.roster.admins, userId);
    DelegateDirectSucceedsIff(l, bundleName, policies, userId, permitted, policiesAllowed, bundleAllowed, caller,
                              permission, io);
    NewIsFound(l.roster, userId,
               DelegatedInfo(bundleName, permission.value, caller.value,
                             if POLICY_ALLOW_ALL in policies then [POLICY_ALLOW_ALL] else policies, false));
  }

  /** Setting the running mode succeeds exactly when the current user sees the administrator, the answers allow it and
      the row is written; otherwise nothing changes. */
  lemma RunningModeSucceedsIff(l: Life, bundleName: string, currentUser: int, permitted: bool,
                               mode: Option<RunningMode>, io: Outcome)
    ensures var r := RunningModeSpec(l, bundleName, currentUser, permitted, mode, io);
            && (r.err == LifeOk <==>
                AdminByPkgName(l.roster.admins, bundleName, currentUser).Some? && permitted && mode.Some? && io == Done)
            && r.life.enabled == l.enabled && (r.err != LifeOk ==> r.life == l)
  {
  }

  /** Then the default user's administrator of the name has the mode, and what the one seen had. */
  lemma RunningModeLeaves(l: Life, bundleName: string, currentUser: int, permitted: bool, mode: Option<RunningMode>,
                          io: Outcome)
    requires Safe(l.roster.admins)
    requires RunningModeSpec(l, bundleName, currentUser, permitted, mode, io).err == LifeOk
    ensures var l' := RunningModeSpec(l, bundleName, currentUser, permitted, mode, io).life;
            var seen, now := AdminByPkgName(l.roster.admins, bundleName, currentUser),
                             AdminByPkgName(l'.roster.admins, bundleName, DEFAULT_USER_ID);
            && now.Some? && seen.Some? && mode.Some?
            && now.value.runningMode == mode.value && now.value.packageName == bundleName
            && now.value.className == seen.value.className && now.value.permission == seen.value.permission
            && now.value.entName == seen.value.entName && now.value.entDesc == seen.value.entDesc
  {
    SafeIsKnown(l.roster.admins, DEFAULT_USER_ID);
    RunningModeSucceedsIff(l, bundleName, currentUser, permitted, mode, io);
    SeenIsKnown(l.roster.admins, bundleName, currentUser);
    SavedByDefault(l.roster,
                   AdminByPkgName(l.roster.admins, bundleName, currentUser).value.(runningMode := mode.value));
  }

  lemma SeenIsKnown(admins: Admins, p: string, u: int)
    requires Safe(admins) && AdminByPkgName(admins, p, u).Some?
    ensures AdminByPkgName(admins, p, u).value.adminType != UNKNOWN &&
            AdminByPkgName(admins, p, u).value.packageName == p
  {
    LookupIs(admins, p, u);
    var e := AdminByPkgName(admins, p, u).value;
    assert ListSafe(ListOf(admins, u), u) && ListSafe(ListOf(admins, DEFAULT_USER_ID), DEFAULT_USER_ID);
  }

  // ----- Why a call is refused -----

  /** What each code of an enabling call means: the checks come in this order, and the rest fails with the fourth
      code. */
  lemma EnableRefusals(admins: Admins, admin: Element, t: AdminType, userId: int, env: EnableEnv)
    ensures var err, typed := EnableCheck(admins, admin, t, userId, env), t == NORMAL || t == ENT || t == BYOD;
            var asked := typed && !env.maintenance && env.sourceAllowed && RoomLeft(admins);
            && (err == ParamError <==> !typed || (!env.maintenance && !env.sourceAllowed))
            && (err == PermissionDenied <==> asked && !env.isDebug && !env.permitted)
            && (err == ComponentInvalid <==>
                asked && (env.isDebug || env.permitted) &&
                (!env.abilityFound ||
                 (env.permission.None? && Enables(admins, admin, t, userId, env.(permission := Some([]))))))
            && (err == LifeOk || err == ParamError || err == PermissionDenied || err == ComponentInvalid ||
                err == EnableAdminFailed)
  {
    CountIs(ListOf(admins, DEFAULT_USER_ID));
    FlagIs(admins, !env.isDebug);
    SuperThereIs(admins);
  }

  lemma EnableDeviceRefusals(l: Life, caller: string, admin: Element, permitted: bool, abilityFound: bool,
                             permission: seq<string>, io: Outcome)
    ensures var err := EnableDeviceSpec(l, caller, admin, permitted, abilityFound, permission, io).err;
            var asker := AdminByPkgName(l.roster.admins, caller, DEFAULT_USER_ID);
            var asked := asker.Some? && asker.value.adminType == ENT && RoomLeft(l.roster.admins);
            && (err == AdminInactive <==> asker.None?)
            && (err == AdminPermissionDenied <==> asker.Some? && asker.value.adminType != ENT)
            && (err == PermissionDenied <==> asked && !permitted)
            && (err == ComponentInvalid <==> asked && permitted && !abilityFound)
            && (err == LifeOk || err == AdminInactive || err == AdminPermissionDenied || err == PermissionDenied ||
                err == ComponentInvalid || err == EnableAdminFailed)
  {
    CountIs(ListOf(l.roster.admins, DEFAULT_USER_ID));
  }

  lemma AuthorizeRefusals(l: Life, admin: string, bundleName: string, currentUser: int, permitted: bool,
                          permission: Option<seq<string>>, abilityName: string, io: Outcome)
    ensures var err := AuthorizeSpec(l, admin, bundleName, currentUser, permitted, permission, abilityName, io).err;
            var asker, seen := AdminByPkgName(l.roster.admins, admin, currentUser),
                               AdminByPkgName(l.roster.admins, bundleName, currentUser);
            var superAsks := asker.Some? && asker.value.adminType == ENT;
            var fits := superAsks && permitted && (seen.Some? ==> seen.value.adminType == SUB_SUPER_ADMIN);
            && (err == AdminInactive <==> asker.None?)
            && (err == AdminPermissionDenied <==> (asker.Some? && !superAsks) || (superAsks && permitted && !fits))
            && (err == PermissionDenied <==> superAsks && !permitted)
            && (err == AuthorizePermissionFailed <==> fits && permission.None?)
            && (err == StorageRdbFailed <==> fits && permission.Some? && io == Unavailable)
            && (err == Abnormal <==> fits && permission.Some? && io == Failed)
  {
  }

  lemma DelegateRefusals(l: Life, parent: string, bundleName: string, policies: seq<string>, currentUser: int,
                         permitted: bool, policiesCheck: LifeErr, bundleAllowed: bool, permission: Option<seq<string>>,
                         io: Outcome)
    requires policies != []
    ensures var err := DelegateSpec(l, parent, bundleName, policies, currentUser, permitted, policiesCheck,
                                    bundleAllowed, permission, io).err;
            var check := DelegateCheck(l.roster.admins, parent, bundleName, policies, currentUser, permitted);
            var asker := AdminByPkgName(l.roster.admins, parent, currentUser);
            var superAsks := |policies| <= 200 && asker.Some? && asker.value.adminType == ENT;
            var fits := superAsks && permitted && parent != bundleName;
            && (check == AdminInactive <==> |policies| <= 200 && asker.None?)
            && (check == AdminPermissionDenied <==> |policies| <= 200 && asker.Some? && !superAsks)
            && (check == PermissionDenied <==> superAsks && !permitted)
            && (check == ParamError <==> |policies| > 200 || (superAsks && permitted && parent == bundleName))
            && (check == LifeOk <==> fits)
            && (!fits ==> err == check) && (fits && policiesCheck != LifeOk ==> err == policiesCheck)
            && (fits && policiesCheck == LifeOk ==>
                  && (err == AuthorizePermissionFailed <==> !bundleAllowed || permission.None?)
                  && (err == StorageRdbFailed <==> bundleAllowed && permission.Some? && io == Unavailable)
                  && (err == Abnormal <==> bundleAllowed && permission.Some? && io == Failed))
  {
  }

  lemma DelegateDirectRefusals(l: Life, bundleName: string, policies: seq<string>, userId: int, permitted: bool,
                               policiesAllowed: bool, bundleAllowed: bool, caller: Option<string>,
                               permission: Option<seq<string>>, io: Outcome)
    ensures var err := DelegateDirectSpec(l, bundleName, policies, userId, permitted, policiesAllowed, bundleAllowed,
                                          caller, permission, io).err;
            var fits := permitted && |policies| <= 200 && policiesAllowed;
            var free := AdminByPkgName(l.roster.admins, bundleName, userId).None? && bundleAllowed;
            && (err == PermissionDenied <==> !permitted)
            && (err == ParamError <==> permitted && !fits)
            && (err == PermissionError <==> fits && free && caller.None?)
            && (err == AuthorizePermissionFailed <==> fits && (!free || (caller.Some? && permission.None?)))
            && (err == StorageRdbFailed <==> fits && free && caller.Some? && permission.Some? && io == Unavailable)
            && (err == Abnormal <==> fits && free && caller.Some? && permission.Some? && io == Failed)
  {
  }

  lemma RunningModeRefusals(l: Life, bundleName: string, currentUser: int, permitted: bool, mode: Option<RunningMode>,
                            io: Outcome)
    ensures var err := RunningModeSpec(l, bundleName, currentUser, permitted, mode, io).err;
            var seen := AdminByPkgName(l.roster.admins, bundleName, currentUser);
            && (err == AdminInactive <==> seen.None?)
            && (err == PermissionDenied <==> seen.Some? && !permitted)
            && (err == ParamError <==> seen.Some? && permitted && mode.None?)
            && (err == StorageRdbFailed <==> seen.Some? && permitted && mode.Some? && io == Unavailable)
            && (err == Abnormal <==> seen.Some? && permitted && mode.Some? && io == Failed)
  {
  }
}
