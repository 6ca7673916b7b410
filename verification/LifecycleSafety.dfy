/** Safety of the roster over all runs of the life-cycle calls, and exactly when the others keep it. */
module LifecycleSafety {
  import opened PolicyModel
  import opened ManagerModel
  import opened AdminModel
  import opened LifecycleModel

  // ----- Lookups -----

  lemma {:induction false} FindNamedIs(list: seq<AdminInfo>, p: string)
    ensures FindNamed(list, p).None? <==> !Named(list, p)
    ensures FindNamed(list, p).Some? ==>
            exists i :: 0 <= i < |list| && list[i] == FindNamed(list, p).value && list[i].packageName == p
  {
    if list != [] {
      FindNamedIs(list[1..], p);
      if Named(list[1..], p) {
        var i :| 0 <= i < |list[1..]| && list[1..][i].packageName == p;
        assert list[i + 1].packageName == p;
      }
      if FindNamed(list[1..], p).Some? {
        var i :| 0 <= i < |list[1..]| && list[1..][i] == FindNamed(list[1..], p).value;
        assert list[i + 1] == FindNamed(list[1..], p).value;
      }
    }
  }

  lemma {:induction false} FindAcrossIs(list: seq<AdminInfo>, p: string)
    ensures FindAcross(list, p).Some? ==>
              exists i :: 0 <= i < |list| && list[i] == FindAcross(list, p).value && list[i].packageName == p
  {
    if list != [] {
      FindAcrossIs(list[1..], p);
      if FindAcross(list[1..], p).Some? {
        var i :| 0 <= i < |list[1..]| && list[1..][i] == FindAcross(list[1..], p).value;
        assert list[i + 1] == FindAcross(list[1..], p).value;
      }
    }
  }

  /** A copy stands for an entry: same name, type, debug flag and parent. */
  ghost predicate StandsFor(copy: AdminInfo, list: seq<AdminInfo>) {
    exists i :: 0 <= i < |list| && CreateAdmin(list[i]) == Some(copy)
  }

  ghost predicate AllKnown(list: seq<AdminInfo>) {
    forall i :: 0 <= i < |list| ==> list[i].adminType != UNKNOWN
  }

  lemma OwnLookup(list: seq<AdminInfo>, p: string)
    requires AllKnown(list)
    ensures FindNamed(Copies(list), p).None? <==> !Named(list, p)
    ensures FindNamed(Copies(list), p).Some? ==>
              FindNamed(Copies(list), p).value.packageName == p && StandsFor(FindNamed(Copies(list), p).value, list)
  {
    CopiesKept(list);
    FindNamedIs(Copies(list), p);
    if Named(list, p) {
      var i :| 0 <= i < |list| && list[i].packageName == p;
      assert Copies(list)[i].packageName == p;
    }
  }

  lemma AcrossLookup(list: seq<AdminInfo>, p: string)
    requires AllKnown(list)
    ensures FindAcross(Copies(list), p).Some? ==>
              FindAcross(Copies(list), p).value.packageName == p && StandsFor(FindAcross(Copies(list), p).value, list)
  {
    CopiesKept(list);
    FindAcrossIs(Copies(list), p);
  }

  /** What a lookup finds is an entry of the user or of the default user; when it finds nothing the user has none. */
  lemma LookupIs(admins: Admins, p: string, u: int)
    requires Safe(admins)
    ensures AdminByPkgName(admins, p, u).None? ==> !Named(ListOf(admins, u), p)
    ensures AdminByPkgName(admins, p, u).Some? ==>
              var e := AdminByPkgName(admins, p, u).value;
              e.packageName == p && (StandsFor(e, ListOf(admins, u)) || StandsFor(e, ListOf(admins, DEFAULT_USER_ID)))
  {
    assert ListSafe(ListOf(admins, u), u) && ListSafe(ListOf(admins, DEFAULT_USER_ID), DEFAULT_USER_ID);
    OwnLookup(ListOf(admins, u), p);
    AcrossLookup(ListOf(admins, DEFAULT_USER_ID), p);
  }

  // ----- One list -----

  lemma {:induction false} CountAppend(list: seq<AdminInfo>, e: AdminInfo)
    ensures CountDeviceAdmins(list + [e]) == CountDeviceAdmins(list) + if IsDeviceAdmin(e) then 1 else 0
  {
    assert (list + [e])[..|list|] == list;
  }

  lemma {:induction false} CountSameTypes(list: seq<AdminInfo>, list': seq<AdminInfo>)
    requires |list| == |list'| && forall i :: 0 <= i < |list| ==> list[i].adminType == list'[i].adminType
    ensures CountDeviceAdmins(list) == CountDeviceAdmins(list')
  {
    if list != [] { CountSameTypes(list[..|list| - 1], list'[..|list| - 1]); }
  }

  lemma {:induction false} WithoutIs(list: seq<AdminInfo>, p: string)
    ensures CountDeviceAdmins(Without(list, p)) <= CountDeviceAdmins(list) && |Without(list, p)| <= |list|
    ensures forall e :: e in Without(list, p) <==> e in list && e.packageName != p
  {
    if list != [] {
      var init, last := list[..|list| - 1], list[|list| - 1];
      WithoutIs(init, p);
      assert list == init + [last];
      CountAppend(Without(init, p), last);
    }
  }

  lemma {:induction false} WithoutSafe(list: seq<AdminInfo>, p: string, u: int)
    requires ListSafe(list, u)
    ensures ListSafe(Without(list, p), u)
  {
    WithoutIs(list, p);
    WithoutUnique(list, p);
    var kept := Without(list, p);
    forall i | 0 <= i < |kept|
      ensures kept[i].adminType != UNKNOWN && (IsDeviceAdmin(kept[i]) ==> u == DEFAULT_USER_ID)
    {
      assert kept[i] in kept;
    }
  }

  ghost predicate ApartFrom(list: seq<AdminInfo>, e: AdminInfo) {
    forall o :: o in list ==> o.packageName != e.packageName && !(IsOfficialSuper(o) && IsOfficialSuper(e))
  }

  lemma AppendUnique(list: seq<AdminInfo>, e: AdminInfo)
    requires UniqueNames(list) && OneSuper(list) && ApartFrom(list, e)
    ensures UniqueNames(list + [e]) && OneSuper(list + [e])
  {
    forall i | 0 <= i < |list|
      ensures list[i].packageName != e.packageName && !(IsOfficialSuper(list[i]) && IsOfficialSuper(e))
    {
      assert list[i] in list;
    }
  }

  lemma {:induction false} WithoutUnique(list: seq<AdminInfo>, p: string)
    requires UniqueNames(list) && OneSuper(list)
    ensures UniqueNames(Without(list, p)) && OneSuper(Without(list, p))
  {
    if list != [] {
      var init, last := list[..|list| - 1], list[|list| - 1];
      WithoutUnique(init, p);
      WithoutIs(init, p);
      assert ApartFrom(init, last) by {
        forall o | o in init
          ensures o.packageName != last.packageName && !(IsOfficialSuper(o) && IsOfficialSuper(last))
        {
          var k :| 0 <= k < |init| && init[k] == o;
          assert list[k] == o;
        }
      }
      AppendUnique(Without(init, p), last);
    }
  }

  /** A change that keeps names, types and debug flags keeps a list safe. */
  lemma SameShapeSafe(list: seq<AdminInfo>, list': seq<AdminInfo>, u: int)
    requires ListSafe(list, u) && |list| == |list'|
    requires forall i :: 0 <= i < |list| ==>
               list[i].packageName == list'[i].packageName && list[i].adminType == list'[i].adminType &&
                 list[i].isDebug == list'[i].isDebug
    ensures ListSafe(list', u)
  {
    CountSameTypes(list, list');
  }

  // ----- Saving an administrator -----

  lemma AnyDebugIs(admins: Admins, isDebug: bool)
    ensures !AnyDebug(admins, isDebug) <==> forall u :: SameDebug(ListOf(admins, u), !isDebug)
  {
    if !AnyDebug(admins, isDebug) {
      forall u ensures SameDebug(ListOf(admins, u), !isDebug) {
        if u in admins { forall i | 0 <= i < |admins[u]| ensures admins[u][i].isDebug == !isDebug { } }
      }
    }
    if AnyDebug(admins, isDebug) {
      var u :| u in admins.Keys && exists i :: 0 <= i < |admins[u]| && admins[u][i].isDebug == isDebug;
      var i :| 0 <= i < |admins[u]| && admins[u][i].isDebug == isDebug;
      assert !SameDebug(ListOf(admins, u), !isDebug);
    }
  }

  /** What a new entry must meet besides having a new name. */
  predicate MayInsert(admins: Admins, u: int, item: AdminInfo) {
    && item.adminType != UNKNOWN
    && (IsDeviceAdmin(item) ==> u == DEFAULT_USER_ID && CountDeviceAdmins(ListOf(admins, u)) < MAX_SDA_AND_DA_COUNT)
    && (IsOfficialSuper(item) ==> !IsSuperAdminExist(admins))
    && !AnyDebug(admins, !item.isDebug)
  }

  lemma InsertTypesFit(list: seq<AdminInfo>, u: int, e: AdminInfo)
    requires TypesFit(list, u) && e.adminType != UNKNOWN && (IsDeviceAdmin(e) ==> u == DEFAULT_USER_ID)
    ensures TypesFit(list + [e], u)
  {
  }

  lemma InsertListSafe(list: seq<AdminInfo>, u: int, e: AdminInfo)
    requires ListSafe(list, u) && !Named(list, e.packageName) && e.adminType != UNKNOWN
    requires IsDeviceAdmin(e) ==> u == DEFAULT_USER_ID && CountDeviceAdmins(list) < MAX_SDA_AND_DA_COUNT
    requires IsOfficialSuper(e) ==> forall i :: 0 <= i < |list| ==> !IsOfficialSuper(list[i])
    ensures ListSafe(list + [e], u)
  {
    CountAppend(list, e);
    assert ApartFrom(list, e) by {
      forall o | o in list ensures o.packageName != e.packageName && !(IsOfficialSuper(o) && IsOfficialSuper(e)) {
        var i :| 0 <= i < |list| && list[i] == o;
      }
    }
    AppendUnique(list, e);
    InsertTypesFit(list, u, e);
  }

  lemma InsertOneMode(admins: Admins, u: int, e: AdminInfo)
    requires !AnyDebug(admins, !e.isDebug)
    ensures OneDebugMode(admins[u := ListOf(admins, u) + [e]])
  {
    var admins' := admins[u := ListOf(admins, u) + [e]];
    AnyDebugIs(admins, !e.isDebug);
    forall v ensures SameDebug(ListOf(admins', v), e.isDebug) { assert SameDebug(ListOf(admins, v), e.isDebug); }
  }

  lemma InsertSafe(admins: Admins, u: int, item: AdminInfo)
    requires Safe(admins) && MayInsert(admins, u, item) && !Named(ListOf(admins, u), item.packageName)
    ensures Safe(SetByUser(admins, u, item))
  {
    var e := CreateAdmin(item).value;
    var admins' := SetByUser(admins, u, item);
    assert ListSafe(ListOf(admins, u), u);
    InsertListSafe(ListOf(admins, u), u, e);
    InsertOneMode(admins, u, e);
    forall v ensures ListSafe(ListOf(admins', v), v) { assert ListSafe(ListOf(admins, v), v); }
  }

  lemma ChangedSafe(admins: Admins, u: int, p: string, change: Change)
    requires Safe(admins) && (change.CopyValue? || change.CopyPermission? || change.CopyEntInfo? || change.CopyEvents?)
    ensures Safe(ChangeByUser(admins, u, p, change))
  {
    var admins' := ChangeByUser(admins, u, p, change);
    forall v ensures ListSafe(ListOf(admins', v), v) {
      assert ListSafe(ListOf(admins, v), v);
      SameShapeSafe(ListOf(admins, v), ListOf(admins', v), v);
    }
    SameDebugKept(admins, admins');
  }

  lemma SameDebugKept(admins: Admins, admins': Admins)
    requires OneDebugMode(admins)
    requires forall u :: |ListOf(admins', u)| == |ListOf(admins, u)|
    requires forall u, i :: 0 <= i < |ListOf(admins, u)| ==>
               ListOf(admins', u)[i].isDebug == ListOf(admins, u)[i].isDebug
    ensures OneDebugMode(admins')
  {
    var mode :| forall u :: SameDebug(ListOf(admins, u), mode);
    forall u ensures SameDebug(ListOf(admins', u), mode) { assert SameDebug(ListOf(admins, u), mode); }
  }

  /** Saving a value keeps the roster safe when a new entry may be inserted. */
  lemma SetValueSafe(r: Roster, u: int, item: AdminInfo, io: Outcome)
    requires Safe(r.admins)
    requires AdminByPkgName(r.admins, item.packageName, u).None? ==> MayInsert(r.admins, u, item)
    ensures Safe(SetAdminValueSpec(r, u, item, io).roster.admins)
  {
    LookupIs(r.admins, item.packageName, u);
    if AdminByPkgName(r.admins, item.packageName, u).Some? {
      ChangedSafe(r.admins, u, item.packageName, CopyValue(item));
    } else {
      InsertSafe(r.admins, u, item);
    }
  }

  lemma SomeAdminMode(admins: Admins, e: AdminInfo, u: int)
    requires Safe(admins) && StandsFor(e, ListOf(admins, u))
    ensures !AnyDebug(admins, !e.isDebug)
  {
    var i :| 0 <= i < |ListOf(admins, u)| && CreateAdmin(ListOf(admins, u)[i]) == Some(e);
    var mode :| forall v :: SameDebug(ListOf(admins, v), mode);
    assert SameDebug(ListOf(admins, u), mode);
    AnyDebugIs(admins, !e.isDebug);
  }

  /** The debug flag of an administrator that was looked up is everybody's. */
  lemma FoundMode(admins: Admins, p: string, u: int)
    requires Safe(admins) && AdminByPkgName(admins, p, u).Some?
    ensures !AnyDebug(admins, !AdminByPkgName(admins, p, u).value.isDebug)
  {
    LookupIs(admins, p, u);
    var e := AdminByPkgName(admins, p, u).value;
    if StandsFor(e, ListOf(admins, u)) {
      SomeAdminMode(admins, e, u);
    } else {
      SomeAdminMode(admins, e, DEFAULT_USER_ID);
    }
  }

  // ----- The calls -----

  lemma EnableSafe(l: Life, admin: Element, entName: string, entDesc: string, t: AdminType, userId: int,
                   source: EnableSource, env: EnableEnv, io: Outcome)
    requires Safe(l.roster.admins)
    ensures Safe(EnableSpec(l, admin, entName, entDesc, t, userId, source, env, io).life.roster.admins)
  {
    var r := EnableSpec(l, admin, entName, entDesc, t, userId, source, env, io);
    if r.life.roster != l.roster {
      var item := EnabledInfo(admin, entName, entDesc, t, source, env.isDebug, env.permission.value);
      SetValueSafe(l.roster, if t == ENT || t == NORMAL then DEFAULT_USER_ID else userId, item, io);
    }
  }

  lemma EnableDeviceSafe(l: Life, caller: string, admin: Element, permitted: bool, abilityFound: bool,
                         permission: seq<string>, io: Outcome)
    requires Safe(l.roster.admins)
    ensures Safe(EnableDeviceSpec(l, caller, admin, permitted, abilityFound, permission, io).life.roster.admins)
  {
    var r := EnableDeviceSpec(l, caller, admin, permitted, abilityFound, permission, io);
    if r.life.roster != l.roster {
      FoundMode(l.roster.admins, caller, DEFAULT_USER_ID);
      var superAdmin := AdminByPkgName(l.roster.admins, caller, DEFAULT_USER_ID).value;
      SetValueSafe(l.roster, DEFAULT_USER_ID,
                   NO_INFO.(packageName := admin.bundleName, className := admin.abilityName, permission := permission,
                            adminType := NORMAL, isDebug := superAdmin.isDebug, enableSource := SUPER_ADMIN), io);
    }
  }

  lemma AuthorizeSafe(l: Life, admin: string, bundleName: string, currentUser: int, permitted: bool,
                      permission: Option<seq<string>>, abilityName: string, io: Outcome)
    requires Safe(l.roster.admins)
    ensures Safe(AuthorizeSpec(l, admin, bundleName, currentUser, permitted, permission, abilityName,
                               io).life.roster.admins)
  {
    var r := AuthorizeSpec(l, admin, bundleName, currentUser, permitted, permission, abilityName, io);
    if r.life.roster != l.roster {
      FoundMode(l.roster.admins, admin, currentUser);
      var superAdmin := AdminByPkgName(l.roster.admins, admin, currentUser).value;
      SetValueSafe(l.roster, DEFAULT_USER_ID,
                   NO_INFO.(packageName := bundleName, className := abilityName, permission := permission.value,
                            parentAdminName := admin, adminType := SUB_SUPER_ADMIN, isDebug := superAdmin.isDebug), io);
    }
  }

  lemma DelegateSafe(l: Life, parent: string, bundleName: string, policies: seq<string>, currentUser: int,
                     permitted: bool, policiesCheck: LifeErr, bundleAllowed: bool, permission: Option<seq<string>>,
                     io: Outcome)
    requires policies != [] && Safe(l.roster.admins)
    ensures Safe(DelegateSpec(l, parent, bundleName, policies, currentUser, permitted, policiesCheck, bundleAllowed,
                              permission, io).life.roster.admins)
  {
    var r := DelegateSpec(l, parent, bundleName, policies, currentUser, permitted, policiesCheck, bundleAllowed,
                          permission, io);
    if r.life.roster != l.roster {
      FoundMode(l.roster.admins, parent, currentUser);
      var superAdmin := AdminByPkgName(l.roster.admins, parent, currentUser).value;
      SetValueSafe(l.roster, currentUser,
                   DelegatedInfo(bundleName, permission.value, parent, policies, superAdmin.isDebug), io);
    }
  }

  /** An entry found under another user that the default user does not have is no super or device administrator. */
  lemma FoundElsewhere(admins: Admins, p: string, u: int)
    requires Safe(admins) && AdminByPkgName(admins, p, u).Some? && AdminByPkgName(admins, p, DEFAULT_USER_ID).None?
    ensures var e := AdminByPkgName(admins, p, u).value;
            e.packageName == p && e.adminType != UNKNOWN && !IsDeviceAdmin(e)
  {
    LookupIs(admins, p, u);
    LookupIs(admins, p, DEFAULT_USER_ID);
    var e := AdminByPkgName(admins, p, u).value;
    assert !StandsFor(e, ListOf(admins, DEFAULT_USER_ID));
    var i :| 0 <= i < |ListOf(admins, u)| && CreateAdmin(ListOf(admins, u)[i]) == Some(e);
    assert ListSafe(ListOf(admins, u), u);
  }

  lemma RunningModeSafe(l: Life, bundleName: string, currentUser: int, permitted: bool, mode: Option<RunningMode>,
                        io: Outcome)
    requires Safe(l.roster.admins)
    ensures Safe(RunningModeSpec(l, bundleName, currentUser, permitted, mode, io).life.roster.admins)
  {
    var r := RunningModeSpec(l, bundleName, currentUser, permitted, mode, io);
    if r.life.roster != l.roster {
      FoundMode(l.roster.admins, bundleName, currentUser);
      LookupIs(l.roster.admins, bundleName, currentUser);
      var admin := AdminByPkgName(l.roster.admins, bundleName, currentUser).value;
      if AdminByPkgName(l.roster.admins, bundleName, DEFAULT_USER_ID).None? {
        FoundElsewhere(l.roster.admins, bundleName, currentUser);
      }
      SetValueSafe(l.roster, DEFAULT_USER_ID, admin.(runningMode := mode.value), io);
    }
  }

  lemma DeleteSafe(admins: Admins, u: int, p: string)
    requires Safe(admins)
    ensures Safe(DeleteByUser(admins, u, p))
  {
    var admins' := DeleteByUser(admins, u, p);
    var mode :| forall v :: SameDebug(ListOf(admins, v), mode);
    forall v ensures ListSafe(ListOf(admins', v), v) && SameDebug(ListOf(admins', v), mode) {
      assert ListSafe(ListOf(admins, v), v) && SameDebug(ListOf(admins, v), mode);
      if v == u && u in admins {
        WithoutSafe(admins[u], p, u);
        WithoutIs(admins[u], p);
        var kept := Without(admins[u], p);
        forall i | 0 <= i < |kept| ensures kept[i].isDebug == mode { assert kept[i] in kept; }
        assert ListOf(admins', u) == kept;
      }
    }
  }

  lemma {:induction false} DeleteAllSafe(admins: Admins, dels: seq<(int, string)>)
    requires Safe(admins)
    ensures Safe(DeleteAll(admins, dels))
  {
    if dels != [] {
      DeleteAllSafe(admins, dels[..|dels| - 1]);
      DeleteSafe(DeleteAll(admins, dels[..|dels| - 1]), dels[|dels| - 1].0, dels[|dels| - 1].1);
    }
  }

  // ----- Replacing -----

  function Renamed(admins: Admins, from: string, info: AdminInfo): Admins {
    RenameParentsByUser(ChangeByUser(admins, DEFAULT_USER_ID, from, CopyIdentity(info)), DEFAULT_USER_ID, from,
                        info.packageName)
  }

  function RenamedList(list: seq<AdminInfo>, from: string, info: AdminInfo): seq<AdminInfo> {
    RenameParents(Changed(list, from, CopyIdentity(info)), from, info.packageName)
  }

  lemma RenamedListAt(list: seq<AdminInfo>, from: string, info: AdminInfo, i: nat)
    requires i < |list|
    ensures |RenamedList(list, from, info)| == |list|
    ensures var e, e' := list[i], RenamedList(list, from, info)[i];
            && e'.packageName == (if e.packageName == from then info.packageName else e.packageName)
            && e'.className == (if e.packageName == from then info.className else e.className)
            && e'.enableSource == (if e.packageName == from then info.enableSource else e.enableSource)
            && e'.parentAdminName == (if IsChildOf(e, from) then info.packageName else e.parentAdminName)
            && e' == e.(packageName := e'.packageName, className := e'.className, enableSource := e'.enableSource,
                        parentAdminName := e'.parentAdminName)
  {
  }

  lemma RenamedUnique(list: seq<AdminInfo>, list': seq<AdminInfo>, from: string, to: string)
    requires UniqueNames(list) && |list| == |list'| && (from == to || !Named(list, to))
    requires forall i :: 0 <= i < |list| ==>
               list'[i].packageName == if list[i].packageName == from then to else list[i].packageName
    ensures UniqueNames(list')
  {
    forall i, j | 0 <= i < j < |list| ensures list'[i].packageName != list'[j].packageName {
      assert list[i].packageName != list[j].packageName;
      assert from == to || (list[i].packageName != to && list[j].packageName != to);
    }
  }

  lemma SameTypesFit(list: seq<AdminInfo>, list': seq<AdminInfo>, u: int)
    requires OneSuper(list) && TypesFit(list, u) && |list| == |list'|
    requires forall i :: 0 <= i < |list| ==>
               list'[i].adminType == list[i].adminType && list'[i].isDebug == list[i].isDebug
    ensures OneSuper(list') && TypesFit(list', u)
  {
    forall i, j | 0 <= i < j < |list| ensures !(IsOfficialSuper(list'[i]) && IsOfficialSuper(list'[j])) {
      assert !(IsOfficialSuper(list[i]) && IsOfficialSuper(list[j]));
    }
  }

  lemma RenamedListSafe(list: seq<AdminInfo>, from: string, info: AdminInfo, u: int)
    requires ListSafe(list, u) && (from == info.packageName || !Named(list, info.packageName))
    ensures |RenamedList(list, from, info)| == |list|
    ensures forall i :: 0 <= i < |list| ==> RenamedList(list, from, info)[i].isDebug == list[i].isDebug
    ensures ListSafe(RenamedList(list, from, info), u)
  {
    var list' := RenamedList(list, from, info);
    assert |list'| == |list|;
    forall i | 0 <= i < |list|
      ensures list'[i].packageName == (if list[i].packageName == from then info.packageName else list[i].packageName)
      ensures list'[i].adminType == list[i].adminType && list'[i].isDebug == list[i].isDebug
    {
      RenamedListAt(list, from, info, i);
    }
    CountSameTypes(list, list');
    RenamedUnique(list, list', from, info.packageName);
    SameTypesFit(list, list', u);
  }

  lemma RenamedLists(admins: Admins, from: string, info: AdminInfo, v: int)
    ensures ListOf(Renamed(admins, from, info), v) ==
            if v == DEFAULT_USER_ID then RenamedList(ListOf(admins, v), from, info) else ListOf(admins, v)
    ensures v in Renamed(admins, from, info) <==> v in admins
  {
  }

  lemma RenamedSafe(admins: Admins, from: string, info: AdminInfo)
    requires Safe(admins) && (from == info.packageName || !Named(ListOf(admins, DEFAULT_USER_ID), info.packageName))
    ensures Safe(Renamed(admins, from, info))
  {
    var admins' := Renamed(admins, from, info);
    forall v
      ensures |ListOf(admins', v)| == |ListOf(admins, v)| && ListSafe(ListOf(admins', v), v)
      ensures forall i :: 0 <= i < |ListOf(admins, v)| ==> ListOf(admins', v)[i].isDebug == ListOf(admins, v)[i].isDebug
    {
      assert ListSafe(ListOf(admins, v), v);
      RenamedLists(admins, from, info, v);
      if v == DEFAULT_USER_ID { RenamedListSafe(ListOf(admins, v), from, info, v); }
    }
    forall v | v in admins' ensures admins'[v] != [] {
      RenamedLists(admins, from, info, v);
      assert ListOf(admins, v) != [];
    }
    SameDebugKept(admins, admins');
  }

  lemma {:induction false} FindTypeIs(list: seq<AdminInfo>, t: AdminType)
    ensures FindType(list, t).Some? ==>
            exists i :: 0 <= i < |list| && list[i] == FindType(list, t).value && list[i].adminType == t
  {
    if list != [] {
      FindTypeIs(list[1..], t);
      if FindType(list[1..], t).Some? {
        var i :| 0 <= i < |list[1..]| && list[1..][i] == FindType(list[1..], t).value;
        assert list[i + 1] == FindType(list[1..], t).value;
      }
    }
  }

  lemma SuperStands(list: seq<AdminInfo>, t: AdminType)
    requires AllKnown(list) && FindType(Copies(list), t).Some?
    ensures var e := FindType(Copies(list), t).value; e.adminType == t && StandsFor(e, list)
  {
    CopiesKept(list);
    FindTypeIs(Copies(list), t);
  }

  lemma OfficialIsOne(list: seq<AdminInfo>, e: AdminInfo, f: AdminInfo)
    requires OneSuper(list) && StandsFor(e, list) && StandsFor(f, list) && IsOfficialSuper(e) && IsOfficialSuper(f)
    ensures e == f
  {
    var i :| 0 <= i < |list| && CreateAdmin(list[i]) == Some(e);
    var k :| 0 <= k < |list| && CreateAdmin(list[k]) == Some(f);
    assert IsOfficialSuper(list[i]) && IsOfficialSuper(list[k]);
    assert i == k;
  }

  lemma StandsNoDebug(list: seq<AdminInfo>, e: AdminInfo)
    requires StandsFor(e, list) && SameDebug(list, false)
    ensures !e.isDebug
  {
  }

  /** When the checks pass, the new name is free, or it is the old administrator's own. */
  lemma NewNameIsFree(admins: Admins, oldAdmin: Element, newAdmin: Element, env: ReplaceEnv)
    requires Safe(admins) && MayReplace(admins, oldAdmin, newAdmin, env)
    ensures newAdmin.bundleName == oldAdmin.bundleName || !Named(ListOf(admins, DEFAULT_USER_ID), newAdmin.bundleName)
    ensures !AnyDebug(admins, true)
  {
    var list := ListOf(admins, DEFAULT_USER_ID);
    assert ListSafe(list, DEFAULT_USER_ID);
    AnyDebugIs(admins, true);
    SuperStands(list, ENT);
    StandsNoDebug(list, GetSuperAdmin(admins).value);
    LookupIs(admins, newAdmin.bundleName, DEFAULT_USER_ID);
    if AdminByPkgName(admins, newAdmin.bundleName, DEFAULT_USER_ID).Some? {
      OfficialIsOne(list, AdminByPkgName(admins, newAdmin.bundleName, DEFAULT_USER_ID).value,
                    GetSuperAdmin(admins).value);
    }
  }

  lemma KeepPolicySafe(r: Roster, oldAdmin: Element, newAdmin: Element, env: ReplaceEnv, permission: seq<string>,
                       policiesRenamed: bool, io: ReplaceIo, back: ReplaceIo)
    requires Safe(r.admins) && MayReplace(r.admins, oldAdmin, newAdmin, env)
    ensures var e := ReplacedAdmin(r.admins, oldAdmin);
            Safe(KeepPolicyRoster(r, e, NewSuperAdmin(e, newAdmin, permission), policiesRenamed, io, back).admins)
  {
    var e := ReplacedAdmin(r.admins, oldAdmin);
    LookupIs(r.admins, oldAdmin.bundleName, DEFAULT_USER_ID);
    var info := NewSuperAdmin(e, newAdmin, permission);
    NewNameIsFree(r.admins, oldAdmin, newAdmin, env);
    RenamedSafe(r.admins, e.packageName, info);
    var named := Renamed(r.admins, e.packageName, info);
    var list, list' := ListOf(r.admins, DEFAULT_USER_ID), ListOf(named, DEFAULT_USER_ID);
    if e.packageName != info.packageName && Named(list', e.packageName) {
      var i :| 0 <= i < |list'| && list'[i].packageName == e.packageName;
      assert list' == RenamedList(list, e.packageName, info);
      RenamedListAt(list, e.packageName, info, i);
    }
    RenamedSafe(named, info.packageName, e);
  }

  lemma DebugModeAfter(admins: Admins, dels: seq<(int, string)>, isDebug: bool)
    requires !AnyDebug(admins, isDebug)
    ensures !AnyDebug(DeleteAll(admins, dels), isDebug)
  {
    AnyDebugIs(admins, isDebug);
    AnyDebugIs(DeleteAll(admins, dels), isDebug);
    forall u ensures SameDebug(ListOf(DeleteAll(admins, dels), u), !isDebug) {
      SublistOf(admins, dels, u);
      assert SameDebug(ListOf(admins, u), !isDebug);
      var left := ListOf(DeleteAll(admins, dels), u);
      forall i | 0 <= i < |left| ensures left[i].isDebug == !isDebug { assert left[i] in left; }
    }
  }

  lemma NoSuperAfter(admins: Admins, oldAdmin: Element, newAdmin: Element, env: ReplaceEnv, dels: seq<(int, string)>)
    requires Safe(admins) && MayReplace(admins, oldAdmin, newAdmin, env)
    requires !Named(ListOf(DeleteAll(admins, dels), DEFAULT_USER_ID), oldAdmin.bundleName)
    ensures !IsSuperAdminExist(DeleteAll(admins, dels))
    ensures CountDeviceAdmins(ListOf(DeleteAll(admins, dels), DEFAULT_USER_ID)) < MAX_SDA_AND_DA_COUNT
  {
    var left := ListOf(DeleteAll(admins, dels), DEFAULT_USER_ID);
    OldSuperWasOnly(admins, oldAdmin, newAdmin, env);
    SublistOf(admins, dels, DEFAULT_USER_ID);
    forall i | 0 <= i < |left| ensures !IsOfficialSuper(left[i]) { assert left[i] in left; }
    var e :| e in ListOf(admins, DEFAULT_USER_ID) && IsOfficialSuper(e) && e.packageName == oldAdmin.bundleName;
    CountDrops(admins, dels, e);
    assert ListSafe(ListOf(admins, DEFAULT_USER_ID), DEFAULT_USER_ID);
  }

  /** After the old administrator is gone a new official super administrator may be inserted. */
  lemma ReplacementSafe(r: Roster, oldAdmin: Element, newAdmin: Element, env: ReplaceEnv, dels: seq<(int, string)>,
                        permission: seq<string>, rows: seq<Row>, io: Outcome)
    requires Safe(r.admins) && MayReplace(r.admins, oldAdmin, newAdmin, env)
    requires !Named(ListOf(DeleteAll(r.admins, dels), DEFAULT_USER_ID), oldAdmin.bundleName)
    ensures var item := NewSuperAdmin(ReplacedAdmin(r.admins, oldAdmin), newAdmin, permission);
            Safe(SetAdminValueSpec(Roster(DeleteAll(r.admins, dels), rows), DEFAULT_USER_ID, item, io).roster.admins)
  {
    DeleteAllSafe(r.admins, dels);
    NewNameIsFree(r.admins, oldAdmin, newAdmin, env);
    DebugModeAfter(r.admins, dels, true);
    NoSuperAfter(r.admins, oldAdmin, newAdmin, env, dels);
    var item := NewSuperAdmin(ReplacedAdmin(r.admins, oldAdmin), newAdmin, permission);
    SetValueSafe(Roster(DeleteAll(r.admins, dels), rows), DEFAULT_USER_ID, item, io);
  }

  lemma OldSuperWasOnly(admins: Admins, oldAdmin: Element, newAdmin: Element, env: ReplaceEnv)
    requires Safe(admins) && MayReplace(admins, oldAdmin, newAdmin, env)
    ensures forall e :: e in ListOf(admins, DEFAULT_USER_ID) && IsOfficialSuper(e) ==>
              e.packageName == oldAdmin.bundleName
    ensures exists e ::
              e in ListOf(admins, DEFAULT_USER_ID) && IsOfficialSuper(e) && e.packageName == oldAdmin.bundleName
  {
    var list := ListOf(admins, DEFAULT_USER_ID);
    assert ListSafe(list, DEFAULT_USER_ID);
    CopiesKept(list);
    FindTypeIs(Copies(list), ENT);
    AnyDebugIs(admins, true);
    assert SameDebug(list, false);
    var k :| 0 <= k < |list| && Copies(list)[k] == GetSuperAdmin(admins).value;
    assert list[k] in list && IsOfficialSuper(list[k]) && list[k].packageName == oldAdmin.bundleName;
    forall e | e in list && IsOfficialSuper(e) ensures e.packageName == oldAdmin.bundleName {
      var i :| 0 <= i < |list| && list[i] == e;
    }
  }

  lemma {:induction false} SublistOf(admins: Admins, dels: seq<(int, string)>, u: int)
    ensures forall e :: e in ListOf(DeleteAll(admins, dels), u) ==> e in ListOf(admins, u)
    ensures CountDeviceAdmins(ListOf(DeleteAll(admins, dels), u)) <= CountDeviceAdmins(ListOf(admins, u))
    ensures |ListOf(DeleteAll(admins, dels), u)| <= |ListOf(admins, u)|
  {
    if dels != [] {
      var before := DeleteAll(admins, dels[..|dels| - 1]);
      SublistOf(admins, dels[..|dels| - 1], u);
      WithoutIs(ListOf(before, dels[|dels| - 1].0), dels[|dels| - 1].1);
    }
  }

  lemma {:induction false} WithoutDrops(list: seq<AdminInfo>, e: AdminInfo)
    requires e in list && IsDeviceAdmin(e)
    ensures CountDeviceAdmins(Without(list, e.packageName)) < CountDeviceAdmins(list)
  {
    var init, last := list[..|list| - 1], list[|list| - 1];
    assert list == init + [last];
    WithoutIs(init, e.packageName);
    if e in init { WithoutDrops(init, e); }
    CountAppend(Without(init, e.packageName), last);
  }

  lemma {:induction false} CountDrops(admins: Admins, dels: seq<(int, string)>, e: AdminInfo)
    requires e in ListOf(admins, DEFAULT_USER_ID) && IsDeviceAdmin(e)
    requires e !in ListOf(DeleteAll(admins, dels), DEFAULT_USER_ID)
    ensures CountDeviceAdmins(ListOf(DeleteAll(admins, dels), DEFAULT_USER_ID)) <
            CountDeviceAdmins(ListOf(admins, DEFAULT_USER_ID))
  {
    var init, last := dels[..|dels| - 1], dels[|dels| - 1];
    var before := DeleteAll(admins, init);
    var list := ListOf(before, DEFAULT_USER_ID);
    SublistOf(admins, init, DEFAULT_USER_ID);
    if e in list {
      WithoutIs(list, last.1);
      assert last.0 == DEFAULT_USER_ID && last.1 == e.packageName;
      WithoutDrops(list, e);
    } else {
      CountDrops(admins, init, e);
      WithoutIs(ListOf(before, last.0), last.1);
    }
  }

  // ----- The delegation without a parent -----

  /** Everything the call checks and every answer it gets lets it save the administrator. */
  predicate DirectSaves(admins: Admins, bundleName: string, policies: seq<string>, userId: int, permitted: bool,
                        policiesAllowed: bool, bundleAllowed: bool, caller: Option<string>,
                        permission: Option<seq<string>>, io: Outcome)
  {
    && permitted && |policies| <= POLICIES_MAX_SIZE && policiesAllowed
    && AdminByPkgName(admins, bundleName, userId).None? && bundleAllowed
    && caller.Some? && permission.Some? && io == Done
  }

  lemma SavedDirectlyIff(r: Roster, userId: int, item: AdminInfo)
    requires Safe(r.admins) && AdminByPkgName(r.admins, item.packageName, userId).None?
    requires item.adminType == VIRTUAL_ADMIN && !item.isDebug
    ensures Safe(SetAdminValueSpec(r, userId, item, Done).roster.admins) <==> !AnyDebug(r.admins, true)
  {
    if !AnyDebug(r.admins, true) { SetValueSafe(r, userId, item, Done); } else { MixedModes(r.admins, userId, item); }
  }

  /** It keeps debug and official administrators apart exactly when it saves nothing or there is no debug one. */
  lemma DelegateDirectSafeIff(l: Life, bundleName: string, policies: seq<string>, userId: int, permitted: bool,
                              policiesAllowed: bool, bundleAllowed: bool, caller: Option<string>,
                              permission: Option<seq<string>>, io: Outcome)
    requires Safe(l.roster.admins)
    ensures var r := DelegateDirectSpec(l, bundleName, policies, userId, permitted, policiesAllowed,
                                        bundleAllowed, caller, permission, io);
            Safe(r.life.roster.admins) <==>
            || !DirectSaves(l.roster.admins, bundleName, policies, userId, permitted, policiesAllowed,
                            bundleAllowed, caller, permission, io)
            || !AnyDebug(l.roster.admins, true)
  {
    var admins := l.roster.admins;
    if DirectSaves(admins, bundleName, policies, userId, permitted, policiesAllowed, bundleAllowed, caller,
                   permission, io) {
      var item := DelegatedInfo(bundleName, permission.value, caller.value,
                                if POLICY_ALLOW_ALL in policies then [POLICY_ALLOW_ALL] else policies, false);
      SavedDirectlyIff(l.roster, userId, item);
    }
  }

  lemma MixedModes(admins: Admins, userId: int, item: AdminInfo)
    requires AnyDebug(admins, true) && item.adminType == VIRTUAL_ADMIN && !item.isDebug
    ensures !OneDebugMode(SetByUser(admins, userId, item))
  {
    var admins' := SetByUser(admins, userId, item);
    var u :| u in admins.Keys && exists i :: 0 <= i < |admins[u]| && admins[u][i].isDebug;
    var i :| 0 <= i < |admins[u]| && admins[u][i].isDebug;
    assert ListOf(admins', u)[i].isDebug && !SameDebug(ListOf(admins', u), false);
    var n := |ListOf(admins, userId)|;
    assert ListOf(admins', userId)[n] == item && !SameDebug(ListOf(admins', userId), true);
  }

  const EMPTY_LIFE := Life(Roster(map[], []), false)

  lemma EmptySafe()
    ensures Safe(EMPTY_LIFE.roster.admins)
  {
    assert forall u :: SameDebug(ListOf(map[], u), true);
  }

  /** What enabling the first administrator of a device, a super one, gives. */
  function FirstEnabled(admin: Element, isDebug: bool, permission: seq<string>): LifeResult {
    EnableSpec(EMPTY_LIFE, admin, "", "", ENT, DEFAULT_USER_ID, DEPLOY,
               EnableEnv(false, true, isDebug, true, true, false, Some(permission)), Done)
  }

  lemma FirstEnabledIs(admin: Element, isDebug: bool, permission: seq<string>)
    ensures var r, e := FirstEnabled(admin, isDebug, permission),
                        EnabledInfo(admin, "", "", ENT, DEPLOY, isDebug, permission);
            && r.err == LifeOk && r.life.enabled
            && r.life.roster == Roster(map[DEFAULT_USER_ID := [e]], [Row(DEFAULT_USER_ID, e)])
            && Safe(r.life.roster.admins)
  {
    assert Copies([]) == [];
    assert ListOf(map[], DEFAULT_USER_ID) == [];
    var r, e := FirstEnabled(admin, isDebug, permission), EnabledInfo(admin, "", "", ENT, DEPLOY, isDebug, permission);
    assert r.err == LifeOk;
    assert [] + [e] == [e] && map[][DEFAULT_USER_ID := [e]] == map[DEFAULT_USER_ID := [e]];
    assert [] + [Row(DEFAULT_USER_ID, e)] == [Row(DEFAULT_USER_ID, e)];
    EmptySafe();
    EnableSafe(EMPTY_LIFE, admin, "", "", ENT, DEFAULT_USER_ID, DEPLOY,
               EnableEnv(false, true, isDebug, true, true, false, Some(permission)), Done);
  }

  lemma OneIsFound(e: AdminInfo, p: string)
    requires CreateAdmin(e) == Some(e)
    ensures AdminByPkgName(map[DEFAULT_USER_ID := [e]], p, DEFAULT_USER_ID) == if e.packageName == p then Some(e)
                                                                               else None
  {
    assert [e][..0] == [] && Copies([]) == [] && Copies([e]) == [e];
    assert [e][1..] == [] && FindNamed([], p) == None;
  }

  /** On a fresh device a debug super administrator is enabled, and then an application is delegated policies without a
      parent: both calls succeed, and a debug and an official administrator coexist. */
  lemma DelegationMixesModes(admin: Element, permission: seq<string>, bundleName: string, caller: string)
    requires bundleName != admin.bundleName
    ensures var enabled := FirstEnabled(admin, true, permission);
            var delegated := DelegateDirectSpec(enabled.life, bundleName, [], DEFAULT_USER_ID, true, true, true,
                                                Some(caller), Some([]), Done);
            && enabled.err == LifeOk && Safe(enabled.life.roster.admins)
            && delegated.err == LifeOk && !Safe(delegated.life.roster.admins)
  {
    var l, e := FirstEnabled(admin, true, permission).life, EnabledInfo(admin, "", "", ENT, DEPLOY, true, permission);
    FirstEnabledIs(admin, true, permission);
    OneIsFound(e, bundleName);
    assert ListOf(l.roster.admins, DEFAULT_USER_ID)[0].isDebug;
    assert AnyDebug(l.roster.admins, true);
    DelegateDirectSafeIff(l, bundleName, [], DEFAULT_USER_ID, true, true, true, Some(caller), Some([]), Done);
  }

  // ----- Runs -----

  /** The calls of a run. A removal, by disabling, by an event or by withdrawing a delegation, deletes packages under
      users, some or all of those it set out to delete; a replacement that does not keep the policies removes first. */
  datatype LifeOp =
    | Enable(admin: Element, entName: string, entDesc: string, t: AdminType, userId: int, source: EnableSource,
             env: EnableEnv, io: Outcome)
    | EnableDevice(caller: string, admin: Element, permitted: bool, abilityFound: bool, permissions: seq<string>,
                   io: Outcome)
    | Authorize(parent: string, bundleName: string, currentUser: int, permitted: bool, permission: Option<seq<string>>,
                abilityName: string, io: Outcome)
    | Delegate(parent: string, bundleName: string, policies: seq<string>, currentUser: int, permitted: bool,
               policiesCheck: LifeErr, bundleAllowed: bool, permission: Option<seq<string>>, io: Outcome)
    | DelegateDirect(bundleName: string, policies: seq<string>, userId: int, permitted: bool, policiesAllowed: bool,
                     bundleAllowed: bool, directCaller: Option<string>, permission: Option<seq<string>>, io: Outcome)
    | SetRunningMode(bundleName: string, currentUser: int, permitted: bool, mode: Option<RunningMode>, io: Outcome)
    | ReplaceKeeping(oldAdmin: Element, newAdmin: Element, replaceEnv: ReplaceEnv,
                     policiesRenamed: bool, replaceIo: ReplaceIo, back: ReplaceIo)
    | ReplaceRemoving(oldAdmin: Element, newAdmin: Element, replaceEnv: ReplaceEnv,
                      dels: seq<(int, string)>, removed: bool, io: Outcome)
    | Disable(dels: seq<(int, string)>, checksFlag: bool)

  /** A removal that succeeds leaves no entry of the old super administrator. */
  predicate OpFits(l: Life, op: LifeOp) {
    && (op.Delegate? ==> op.policies != [])
    && (op.ReplaceRemoving? && op.removed ==>
          !Named(ListOf(DeleteAll(l.roster.admins, op.dels), DEFAULT_USER_ID), op.oldAdmin.bundleName))
  }

  function LifeStep(l: Life, op: LifeOp): Life
    requires OpFits(l, op)
  {
    match op
    case Enable(admin, entName, entDesc, t, userId, source, env, io) =>
      EnableSpec(l, admin, entName, entDesc, t, userId, source, env, io).life
    case EnableDevice(caller, admin, permitted, abilityFound, permissions, io) =>
      EnableDeviceSpec(l, caller, admin, permitted, abilityFound, permissions, io).life
    case Authorize(parent, bundleName, currentUser, permitted, permission, abilityName, io) =>
      AuthorizeSpec(l, parent, bundleName, currentUser, permitted, permission, abilityName, io).life
    case Delegate(parent, bundleName, policies, currentUser, permitted, policiesCheck, bundleAllowed, permission, io) =>
      DelegateSpec(l, parent, bundleName, policies, currentUser, permitted, policiesCheck, bundleAllowed, permission,
                   io).life
    case DelegateDirect(bundleName, policies, userId, permitted, policiesAllowed, bundleAllowed, caller,
                        permission, io) =>
      DelegateDirectSpec(l, bundleName, policies, userId, permitted, policiesAllowed, bundleAllowed, caller, permission,
                         io).life
    case SetRunningMode(bundleName, currentUser, permitted, mode, io) =>
      RunningModeSpec(l, bundleName, currentUser, permitted, mode, io).life
    case ReplaceKeeping(oldAdmin, newAdmin, env, policiesRenamed, replaceIo, back) =>
      ReplaceKeepingSpec(l, oldAdmin, newAdmin, env, policiesRenamed, replaceIo, back)
    case ReplaceRemoving(oldAdmin, newAdmin, env, dels, removed, io) =>
      ReplaceRemovingSpec(l, oldAdmin, newAdmin, env, dels, removed, io)
    case Disable(dels, checksFlag) => AfterRemoval(l, dels, checksFlag)
  }

  /** No delegation without a parent is saved beside a debug administrator. */
  predicate ModesFit(l: Life, op: LifeOp) {
    op.DelegateDirect?
    && DirectSaves(l.roster.admins, op.bundleName, op.policies, op.userId, op.permitted, op.policiesAllowed,
                   op.bundleAllowed, op.directCaller, op.permission, op.io)
    ==> !AnyDebug(l.roster.admins, true)
  }

  /** The delegation without a parent is the only call that can make a safe roster unsafe, and exactly then. */
  lemma StepSafe(l: Life, op: LifeOp)
    requires Safe(l.roster.admins) && OpFits(l, op)
    ensures Safe(LifeStep(l, op).roster.admins) <==> ModesFit(l, op)
  {
    match op
    case Enable(admin, entName, entDesc, t, userId, source, env, io) =>
      EnableSafe(l, admin, entName, entDesc, t, userId, source, env, io);
    case EnableDevice(caller, admin, permitted, abilityFound, permissions, io) =>
      EnableDeviceSafe(l, caller, admin, permitted, abilityFound, permissions, io);
    case Authorize(parent, bundleName, currentUser, permitted, permission, abilityName, io) =>
      AuthorizeSafe(l, parent, bundleName, currentUser, permitted, permission, abilityName, io);
    case Delegate(parent, bundleName, policies, currentUser, permitted, policiesCheck, bundleAllowed, permission, io) =>
      DelegateSafe(l, parent, bundleName, policies, currentUser, permitted, policiesCheck, bundleAllowed,
                   permission, io);
    case DelegateDirect(bundleName, policies, userId, permitted, policiesAllowed, bundleAllowed, caller,
                        permission, io) =>
      DelegateDirectSafeIff(l, bundleName, policies, userId, permitted, policiesAllowed, bundleAllowed, caller,
                            permission, io);
    case SetRunningMode(bundleName, currentUser, permitted, mode, io) =>
      RunningModeSafe(l, bundleName, currentUser, permitted, mode, io);
    case ReplaceKeeping(oldAdmin, newAdmin, env, policiesRenamed, replaceIo, back) =>
      if MayReplace(l.roster.admins, oldAdmin, newAdmin, env) {
        KeepPolicySafe(l.roster, oldAdmin, newAdmin, env, env.permission.value, policiesRenamed, replaceIo, back);
      }
    case ReplaceRemoving(oldAdmin, newAdmin, env, dels, removed, io) =>
      DeleteAllSafe(l.roster.admins, dels);
      if removed && MayReplace(l.roster.admins, oldAdmin, newAdmin, env) {
        ReplacementSafe(l.roster, oldAdmin, newAdmin, env, dels, env.permission.value,
                        DeleteAllRows(l.roster.rows, dels), io);
      }
    case Disable(dels, checksFlag) => DeleteAllSafe(l.roster.admins, dels);
  }

  ghost predicate RunFits(l: Life, ops: seq<LifeOp>)
    decreases |ops|
  {
    ops == [] || (OpFits(l, ops[0]) && RunFits(LifeStep(l, ops[0]), ops[1..]))
  }

  ghost function LifeRun(l: Life, ops: seq<LifeOp>): Life
    requires RunFits(l, ops)
    decreases |ops|
  {
    if ops == [] then l else LifeRun(LifeStep(l, ops[0]), ops[1..])
  }

  ghost predicate RunModesFit(l: Life, ops: seq<LifeOp>)
    requires RunFits(l, ops)
    decreases |ops|
  {
    ops == [] || (ModesFit(l, ops[0]) && RunModesFit(LifeStep(l, ops[0]), ops[1..]))
  }

  ghost predicate AlwaysSafe(l: Life, ops: seq<LifeOp>)
    requires RunFits(l, ops)
    decreases |ops|
  {
    Safe(l.roster.admins) && (ops == [] || AlwaysSafe(LifeStep(l, ops[0]), ops[1..]))
  }

  /** Roster safety over all runs: every roster of a run is safe exactly when no delegation without a parent is saved
      beside a debug administrator. */
  lemma {:induction false} RunSafe(l: Life, ops: seq<LifeOp>)
    requires Safe(l.roster.admins) && RunFits(l, ops)
    ensures AlwaysSafe(l, ops) <==> RunModesFit(l, ops)
    ensures RunModesFit(l, ops) ==> Safe(LifeRun(l, ops).roster.admins)
    decreases |ops|
  {
    if ops != [] {
      StepSafe(l, ops[0]);
      if ModesFit(l, ops[0]) { RunSafe(LifeStep(l, ops[0]), ops[1..]); }
    }
  }

  // ----- The enable flag -----

  lemma FoundMeansSome(admins: Admins, p: string, u: int)
    requires AdminByPkgName(admins, p, u).Some?
    ensures exists v :: ListOf(admins, v) != []
  {
    assert Copies([]) == [];
    assert ListOf(admins, u) != [] || ListOf(admins, DEFAULT_USER_ID) != [];
  }

  lemma {:induction false} NoneStaysNone(admins: Admins, dels: seq<(int, string)>)
    requires forall u :: ListOf(admins, u) == []
    ensures forall u :: ListOf(DeleteAll(admins, dels), u) == []
  {
    forall u ensures ListOf(DeleteAll(admins, dels), u) == [] {
      SublistOf(admins, dels, u);
      assert ListOf(admins, u) == [];
    }
  }

  lemma StepFlag(l: Life, op: LifeOp)
    requires FlagOn(l) && OpFits(l, op)
    ensures FlagOn(LifeStep(l, op))
  {
    match op
    case Enable(admin, entName, entDesc, t, userId, source, env, io) =>
    case EnableDevice(caller, admin, permitted, abilityFound, permissions, io) =>
    case Authorize(parent, bundleName, currentUser, permitted, permission, abilityName, io) =>
      if AdminByPkgName(l.roster.admins, parent, currentUser).Some? {
        FoundMeansSome(l.roster.admins, parent, currentUser);
      }
    case Delegate(parent, bundleName, policies, currentUser, permitted, policiesCheck, bundleAllowed, permission, io) =>
      if AdminByPkgName(l.roster.admins, parent, currentUser).Some? {
        FoundMeansSome(l.roster.admins, parent, currentUser);
      }
    case DelegateDirect(bundleName, policies, userId, permitted, policiesAllowed, bundleAllowed, caller,
                        permission, io) =>
    case SetRunningMode(bundleName, currentUser, permitted, mode, io) =>
      if AdminByPkgName(l.roster.admins, bundleName, currentUser).Some? {
        FoundMeansSome(l.roster.admins, bundleName, currentUser);
      }
    case ReplaceKeeping(oldAdmin, newAdmin, env, policiesRenamed, replaceIo, back) =>
    case ReplaceRemoving(oldAdmin, newAdmin, env, dels, removed, io) =>
      if !l.enabled { NoneStaysNone(l.roster.admins, dels); }
    case Disable(dels, checksFlag) =>
      if !l.enabled { NoneStaysNone(l.roster.admins, dels); }
  }

  /** The enable flag never under-reports: in every run, whenever some administrator exists the flag is on. */
  lemma {:induction false} RunFlag(l: Life, ops: seq<LifeOp>)
    requires FlagOn(l) && RunFits(l, ops)
    ensures FlagOn(LifeRun(l, ops))
    decreases |ops|
  {
    if ops != [] {
      StepFlag(l, ops[0]);
      RunFlag(LifeStep(l, ops[0]), ops[1..]);
    }
  }

  /** After a removal that checks, the flag is off exactly when no administrator is left, because the container keeps no
      user with an empty list. */
  lemma RemovalFlagIff(l: Life, dels: seq<(int, string)>)
    requires Safe(l.roster.admins) && l.enabled
    ensures var l' := AfterRemoval(l, dels, true);
            !l'.enabled <==> forall u :: ListOf(l'.roster.admins, u) == []
  {
    DeleteAllSafe(l.roster.admins, dels);
    var admins := DeleteAll(l.roster.admins, dels);
    if forall u :: ListOf(admins, u) == [] {
      forall u ensures u !in admins { assert ListOf(admins, u) == []; }
      assert admins == map[];
    }
  }

  // ----- What a replacement renames -----

  /** A replacement leaves no trace of the old name among names and parents, and moves every child. */
  lemma ReplacementRenames(list: seq<AdminInfo>, from: string, info: AdminInfo)
    requires from != info.packageName
    ensures var list' := RenamedList(list, from, info);
            && (forall i :: 0 <= i < |list'| ==> list'[i].packageName != from && !IsChildOf(list'[i], from))
            && (forall i :: 0 <= i < |list| ==>
                  (IsChildOf(list'[i], info.packageName) <==>
                   IsChildOf(list[i], from) || IsChildOf(list[i], info.packageName)))
  {
    var list' := RenamedList(list, from, info);
    forall i | 0 <= i < |list|
      ensures list'[i].packageName != from && !IsChildOf(list'[i], from)
      ensures IsChildOf(list'[i], info.packageName) <==>
              IsChildOf(list[i], from) || IsChildOf(list[i], info.packageName)
    {
      RenamedListAt(list, from, info, i);
    }
  }
}
