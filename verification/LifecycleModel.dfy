/** The life of administrators: enabling, authorising, delegating, replacing and disabling, as functions of the
    roster and the global enable flag. What other services answer is an argument. */
module LifecycleModel {
  import opened PolicyModel
  import opened ManagerModel
  import opened AdminModel

  const MAX_SDA_AND_DA_COUNT := 10
  const POLICIES_MAX_SIZE := 200
  const POLICY_ALLOW_ALL := "allow_all"

  datatype Life = Life(roster: Roster, enabled: bool)

  datatype LifeErr =
    | LifeOk
    | ParamError
    | EnableAdminFailed
    | PermissionDenied
    | ComponentInvalid
    | AdminInactive
    | AdminPermissionDenied
    | AuthorizePermissionFailed
    | ReplaceAdminFailed
    | DisableAdminFailed
    | RemovalFailed
    | PermissionError
    | StorageRdbFailed
    | Abnormal

  datatype LifeResult = LifeResult(life: Life, err: LifeErr)

  /** An application's administrator ability. */
  datatype Element = Element(bundleName: string, abilityName: string)

  function FromAdminErr(err: AdminErr): LifeErr {
    match err
    case AdminOk => LifeOk
    case StorageUnavailable => StorageRdbFailed
    case _ => Abnormal
  }

  // ----- Queries -----

  predicate IsSuperAdminExist(admins: Admins) {
    exists i | 0 <= i < |ListOf(admins, DEFAULT_USER_ID)| ::
      ListOf(admins, DEFAULT_USER_ID)[i].adminType == ENT && !ListOf(admins, DEFAULT_USER_ID)[i].isDebug
  }

  function FindType(list: seq<AdminInfo>, t: AdminType): Option<AdminInfo> {
    if list == [] then None else if list[0].adminType == t then Some(list[0]) else FindType(list[1..], t)
  }

  function GetSuperAdmin(admins: Admins): Option<AdminInfo> {
    FindType(Copies(ListOf(admins, DEFAULT_USER_ID)), ENT)
  }

  // ----- Enabling -----

  /** `VerifyEnableAdminCondition`. */
  predicate MayEnable(admins: Admins, admin: Element, t: AdminType, userId: int, isDebug: bool, securityMode: bool) {
    && !(t == ENT && userId != DEFAULT_USER_ID)
    && !(t != ENT && securityMode)
    && !AnyDebug(admins, !isDebug)
    && match AdminByPkgName(admins, admin.bundleName, userId)
       case None => true
       case Some(e) => e.adminType == t && e.isDebug == isDebug && e.className == admin.abilityName
  }

  /** What the other services say about an enabling call: maintenance mode, the enable source being allowed, the
      caller's debug mode and permission, the ability being found, security mode, and the permission list. */
  datatype EnableEnv = EnableEnv(maintenance: bool, sourceAllowed: bool, isDebug: bool, permitted: bool,
                                 abilityFound: bool, securityMode: bool, permission: Option<seq<string>>)

  /** The checks of an enabling call, in their order. */
  function EnableCheck(admins: Admins, admin: Element, t: AdminType, userId: int, env: EnableEnv): LifeErr {
    if t != NORMAL && t != ENT && t != BYOD then ParamError
    else if env.maintenance then EnableAdminFailed
    else if !env.sourceAllowed then ParamError
    else if CountDeviceAdmins(ListOf(admins, DEFAULT_USER_ID)) >= MAX_SDA_AND_DA_COUNT then EnableAdminFailed
    else if !env.isDebug && !env.permitted then PermissionDenied
    else if !env.abilityFound then ComponentInvalid
    else if !MayEnable(admins, admin, t, userId, env.isDebug, env.securityMode) then EnableAdminFailed
    else if !env.isDebug && t == ENT && IsSuperAdminExist(admins) &&
            AdminByPkgName(admins, admin.bundleName, userId).None?
    then EnableAdminFailed
    else if env.permission.None? then ComponentInvalid
    else LifeOk
  }

  function EnabledInfo(admin: Element, entName: string, entDesc: string, t: AdminType, source: EnableSource,
                       isDebug: bool, permission: seq<string>): AdminInfo
  {
    NO_INFO.(packageName := admin.bundleName, className := admin.abilityName, entName := entName, entDesc := entDesc,
             permission := permission, adminType := t, isDebug := isDebug, enableSource := source)
  }

  /** Saving an administrator; a success turns the flag on. */
  function SaveEnabledSpec(l: Life, userId: int, item: AdminInfo, io: Outcome): LifeResult {
    var saved := SetAdminValueSpec(l.roster, userId, item, io);
    if saved.err != AdminOk then LifeResult(l.(roster := saved.roster), EnableAdminFailed)
    else LifeResult(Life(saved.roster, true), LifeOk)
  }

  function EnableSpec(l: Life, admin: Element, entName: string, entDesc: string, t: AdminType, userId: int,
                      source: EnableSource, env: EnableEnv, io: Outcome): LifeResult
  {
    var check := EnableCheck(l.roster.admins, admin, t, userId, env);
    if check != LifeOk then LifeResult(l, check)
    else
      SaveEnabledSpec(l, if t == ENT || t == NORMAL then DEFAULT_USER_ID else userId,
                      EnabledInfo(admin, entName, entDesc, t, source, env.isDebug, env.permission.value), io)
  }

  /** A super administrator enables a device administrator. */
  function EnableDeviceSpec(l: Life, caller: string, admin: Element, permitted: bool, abilityFound: bool,
                            permission: seq<string>, io: Outcome): LifeResult
  {
    var admins := l.roster.admins;
    match AdminByPkgName(admins, caller, DEFAULT_USER_ID)
    case None => LifeResult(l, AdminInactive)
    case Some(superAdmin) =>
      if superAdmin.adminType != ENT then LifeResult(l, AdminPermissionDenied)
      else if CountDeviceAdmins(ListOf(admins, DEFAULT_USER_ID)) >= MAX_SDA_AND_DA_COUNT
           then LifeResult(l, EnableAdminFailed)
      else if !permitted then LifeResult(l, PermissionDenied)
      else if !abilityFound then LifeResult(l, ComponentInvalid)
      else
        match AdminByPkgName(admins, admin.bundleName, DEFAULT_USER_ID)
        case Some(e) => LifeResult(l, if e.adminType == NORMAL then LifeOk else EnableAdminFailed)
        case None =>
          var item := NO_INFO.(packageName := admin.bundleName, className := admin.abilityName,
                               permission := permission, adminType := NORMAL, isDebug := superAdmin.isDebug,
                               enableSource := SUPER_ADMIN);
          SaveEnabledSpec(l, DEFAULT_USER_ID, item, io)
  }

  function AuthorizeSpec(l: Life, admin: string, bundleName: string, currentUser: int, permitted: bool,
                         permission: Option<seq<string>>, abilityName: string, io: Outcome): LifeResult
  {
    match AdminByPkgName(l.roster.admins, admin, currentUser)
    case None => LifeResult(l, AdminInactive)
    case Some(superAdmin) =>
      if superAdmin.adminType != ENT then LifeResult(l, AdminPermissionDenied)
      else if !permitted then LifeResult(l, PermissionDenied)
      else
        var sub := AdminByPkgName(l.roster.admins, bundleName, currentUser);
        if sub.Some? && sub.value.adminType != SUB_SUPER_ADMIN then LifeResult(l, AdminPermissionDenied)
        else if permission.None? then LifeResult(l, AuthorizePermissionFailed)
        else
          var item := NO_INFO.(packageName := bundleName, className := abilityName, permission := permission.value,
                               parentAdminName := admin, adminType := SUB_SUPER_ADMIN, isDebug := superAdmin.isDebug);
          var saved := SetAdminValueSpec(l.roster, DEFAULT_USER_ID, item, io);
          LifeResult(l.(roster := saved.roster), FromAdminErr(saved.err))
  }

  function DelegateCheck(admins: Admins, parent: string, bundleName: string, policies: seq<string>, currentUser: int,
                         permitted: bool): LifeErr
  {
    if |policies| > POLICIES_MAX_SIZE then ParamError
    else
      match AdminByPkgName(admins, parent, currentUser)
      case None => AdminInactive
      case Some(superAdmin) =>
        if superAdmin.adminType != ENT then AdminPermissionDenied
        else if !permitted then PermissionDenied
        else if parent == bundleName then ParamError
        else LifeOk
  }

  /** `SetDelegatedPolicies` by a parent, with policies to delegate; `policiesCheck` is the answer about the
      policies. */
  function DelegateSpec(l: Life, parent: string, bundleName: string, policies: seq<string>, currentUser: int,
                        permitted: bool, policiesCheck: LifeErr, bundleAllowed: bool, permission: Option<seq<string>>,
                        io: Outcome): LifeResult
    requires policies != []
  {
    var check := DelegateCheck(l.roster.admins, parent, bundleName, policies, currentUser, permitted);
    if check != LifeOk then LifeResult(l, check)
    else if policiesCheck != LifeOk then LifeResult(l, policiesCheck)
    else if !bundleAllowed || permission.None? then LifeResult(l, AuthorizePermissionFailed)
    else
      var isDebug := AdminByPkgName(l.roster.admins, parent, currentUser).value.isDebug;
      var saved := SetAdminValueSpec(l.roster, currentUser,
                                     DelegatedInfo(bundleName, permission.value, parent, policies, isDebug), io);
      LifeResult(l.(roster := saved.roster), FromAdminErr(saved.err))
  }

  function DelegatedInfo(bundleName: string, permission: seq<string>, parent: string, policies: seq<string>,
                         isDebug: bool): AdminInfo
  {
    NO_INFO.(packageName := bundleName, permission := permission, parentAdminName := parent,
             accessiblePolicies := policies, adminType := VIRTUAL_ADMIN, isDebug := isDebug)
  }

  /** `SetDelegatedPolicies` without a parent administrator: never a debug administrator, and the flag comes first. */
  function DelegateDirectSpec(l: Life, bundleName: string, policies: seq<string>, userId: int, permitted: bool,
                              policiesAllowed: bool, bundleAllowed: bool, caller: Option<string>,
                              permission: Option<seq<string>>, io: Outcome): LifeResult
  {
    if !permitted then LifeResult(l, PermissionDenied)
    else if |policies| > POLICIES_MAX_SIZE || !policiesAllowed then LifeResult(l, ParamError)
    else if AdminByPkgName(l.roster.admins, bundleName, userId).Some? || !bundleAllowed
         then LifeResult(l, AuthorizePermissionFailed)
    else if caller.None? then LifeResult(l, PermissionError)
    else if permission.None? then LifeResult(l, AuthorizePermissionFailed)
    else
      var item := DelegatedInfo(bundleName, permission.value, caller.value,
                                if POLICY_ALLOW_ALL in policies then [POLICY_ALLOW_ALL] else policies, false);
      var saved := SetAdminValueSpec(l.roster, userId, item, io);
      LifeResult(Life(saved.roster, true), FromAdminErr(saved.err))
  }

  /** The current user's administrator is saved again, under the default user. */
  function RunningModeSpec(l: Life, bundleName: string, currentUser: int, permitted: bool, mode: Option<RunningMode>,
                           io: Outcome)
    : LifeResult
  {
    match AdminByPkgName(l.roster.admins, bundleName, currentUser)
    case None => LifeResult(l, AdminInactive)
    case Some(admin) =>
      if !permitted then LifeResult(l, PermissionDenied)
      else if mode.None? then LifeResult(l, ParamError)
      else
        var saved := SetAdminValueSpec(l.roster, DEFAULT_USER_ID, admin.(runningMode := mode.value), io);
        LifeResult(l.(roster := saved.roster), FromAdminErr(saved.err))
  }

  // ----- Replacing -----

  /** What the other services say about a replacement. */
  datatype ReplaceEnv = ReplaceEnv(maintenance: bool, permitted: bool, abilityFound: bool,
                                   permission: Option<seq<string>>)

  /** `CheckReplaceAdmins` and the checks of `ReplaceSuperAdmin` before the roster is touched. */
  function ReplaceCheck(admins: Admins, oldAdmin: Element, newAdmin: Element, env: ReplaceEnv): LifeErr {
    if env.maintenance then ReplaceAdminFailed
    else if !env.permitted then PermissionDenied
    else
      match GetSuperAdmin(admins)
      case None => AdminInactive
      case Some(a) =>
        if a.packageName != oldAdmin.bundleName || a.className != oldAdmin.abilityName then AdminInactive
        else if !env.abilityFound then ComponentInvalid
        else if !MayEnable(admins, newAdmin, ENT, DEFAULT_USER_ID, false, false) then ReplaceAdminFailed
        else if env.permission.None? then Abnormal
        else if a.runningMode == MULTI_USER then ReplaceAdminFailed
        else if AdminByPkgName(admins, oldAdmin.bundleName, DEFAULT_USER_ID).None? then AdminInactive
        else LifeOk
  }

  predicate MayReplace(admins: Admins, oldAdmin: Element, newAdmin: Element, env: ReplaceEnv) {
    ReplaceCheck(admins, oldAdmin, newAdmin, env) == LifeOk
  }

  /** The administrator to be replaced, looked up by name, and the one to take its place. */
  function ReplacedAdmin(admins: Admins, oldAdmin: Element): AdminInfo
    requires AdminByPkgName(admins, oldAdmin.bundleName, DEFAULT_USER_ID).Some?
  {
    AdminByPkgName(admins, oldAdmin.bundleName, DEFAULT_USER_ID).value
  }

  function NewSuperAdmin(e: AdminInfo, newAdmin: Element, permission: seq<string>): AdminInfo {
    NO_INFO.(packageName := newAdmin.bundleName, className := newAdmin.abilityName, entName := e.entName,
             entDesc := e.entDesc, permission := permission, adminType := ENT, isDebug := false,
             enableSource := REPLACE_SOURCE)
  }

  /** How the writes of one replacement in the administrator table end. */
  datatype ReplaceIo = ReplaceIo(available: bool, renamed: nat, replaced: bool)

  /** `HandleKeepPolicy` on the roster: when the policies cannot be renamed the administrator is renamed back. */
  function KeepPolicyRoster(r: Roster, oldInfo: AdminInfo, newInfo: AdminInfo, policiesRenamed: bool, io: ReplaceIo,
                            back: ReplaceIo): Roster
  {
    var done := ReplaceSuperAdminSpec(r, oldInfo.packageName, newInfo, io.available, io.renamed, io.replaced);
    if done.err != AdminOk || policiesRenamed then done.roster
    else ReplaceSuperAdminSpec(done.roster, newInfo.packageName, oldInfo, back.available, back.renamed,
                               back.replaced).roster
  }

  // ----- Removals -----

  /** Deletions of packages under users, one after the other. */
  function DeleteAll(admins: Admins, dels: seq<(int, string)>): Admins {
    if dels == [] then admins
    else DeleteByUser(DeleteAll(admins, dels[..|dels| - 1]), dels[|dels| - 1].0, dels[|dels| - 1].1)
  }

  /** The same deletions in the table. */
  function DeleteAllRows(rows: seq<Row>, dels: seq<(int, string)>): seq<Row> {
    if dels == [] then rows
    else DeleteRows(DeleteAllRows(rows, dels[..|dels| - 1]), dels[|dels| - 1].0, dels[|dels| - 1].1)
  }

  function DeleteAllIn(r: Roster, dels: seq<(int, string)>): Roster {
    Roster(DeleteAll(r.admins, dels), DeleteAllRows(r.rows, dels))
  }

  /** The flag goes off only when no user is left in the container. */
  function AfterRemoval(l: Life, dels: seq<(int, string)>, checksFlag: bool): Life {
    var roster := DeleteAllIn(l.roster, dels);
    Life(roster, if checksFlag && roster.admins == map[] then false else l.enabled)
  }

  /** A replacement that keeps the policies. */
  function ReplaceKeepingSpec(l: Life, oldAdmin: Element, newAdmin: Element, env: ReplaceEnv,
                              policiesRenamed: bool, io: ReplaceIo, back: ReplaceIo): Life
  {
    if !MayReplace(l.roster.admins, oldAdmin, newAdmin, env) then l
    else
      var e := ReplacedAdmin(l.roster.admins, oldAdmin);
      Life(KeepPolicyRoster(l.roster, e, NewSuperAdmin(e, newAdmin, env.permission.value), policiesRenamed, io,
                            back), true)
  }

  /** What saving the new super administrator does after the old one is gone. */
  function SaveReplacementSpec(after: Life, info: AdminInfo, io: Outcome): Life {
    var saved := SetAdminValueSpec(after.roster, DEFAULT_USER_ID, info, io);
    Life(saved.roster, saved.err == AdminOk || after.enabled)
  }

  /** A replacement that removes the old administrator: `dels` are the deletions done, `removed` says whether all
      were. */
  function ReplaceRemovingSpec(l: Life, oldAdmin: Element, newAdmin: Element, env: ReplaceEnv,
                               dels: seq<(int, string)>, removed: bool, io: Outcome): Life
  {
    if !MayReplace(l.roster.admins, oldAdmin, newAdmin, env) then l
    else
      var after := AfterRemoval(l, dels, removed);
      if !removed then after
      else SaveReplacementSpec(after,
                               NewSuperAdmin(ReplacedAdmin(l.roster.admins, oldAdmin), newAdmin,
                                             env.permission.value), io)
  }

  // ----- Safety -----

  ghost predicate UniqueNames(list: seq<AdminInfo>) {
    forall i, j :: 0 <= i < j < |list| ==> list[i].packageName != list[j].packageName
  }

  predicate IsOfficialSuper(info: AdminInfo) {
    info.adminType == ENT && !info.isDebug
  }

  ghost predicate OneSuper(list: seq<AdminInfo>) {
    forall i, j :: 0 <= i < j < |list| ==> !(IsOfficialSuper(list[i]) && IsOfficialSuper(list[j]))
  }

  /** No UNKNOWN type anywhere, and super and device administrators only under the default user. */
  ghost predicate TypesFit(list: seq<AdminInfo>, userId: int) {
    forall i :: 0 <= i < |list| ==>
      list[i].adminType != UNKNOWN && (IsDeviceAdmin(list[i]) ==> userId == DEFAULT_USER_ID)
  }

  ghost predicate SameDebug(list: seq<AdminInfo>, isDebug: bool) {
    forall i :: 0 <= i < |list| ==> list[i].isDebug == isDebug
  }

  /** Debug and official administrators do not coexist, whatever their users. */
  ghost predicate OneDebugMode(admins: Admins) {
    (forall u :: SameDebug(ListOf(admins, u), true)) || (forall u :: SameDebug(ListOf(admins, u), false))
  }

  ghost predicate ListSafe(list: seq<AdminInfo>, userId: int) {
    UniqueNames(list) && OneSuper(list) && TypesFit(list, userId)
    && (userId == DEFAULT_USER_ID ==> CountDeviceAdmins(list) <= MAX_SDA_AND_DA_COUNT)
  }

  /** Unique names, at most one official super administrator, at most ten super and device administrators, no user
      kept without administrators, and debug and official administrators never together. */
  ghost predicate Safe(admins: Admins) {
    && (forall u :: ListSafe(ListOf(admins, u), u))
    && (forall u :: u in admins ==> admins[u] != [])
    && OneDebugMode(admins)
  }

  /** The flag is only off when there is no administrator. */
  ghost predicate FlagOn(l: Life) {
    l.enabled || forall u :: ListOf(l.roster.admins, u) == []
  }
}
