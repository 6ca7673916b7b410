/** Who is the super administrator after a replacement, in the roster, in the table, and for the next replacement. */
module ReplacementLaws {
  import opened PolicyModel
  import opened ManagerModel
  import opened AdminModel
  import opened LifecycleModel
  import opened LifecycleSafety
  import opened RosterSync
  import opened AdminLaws
  import opened LifecycleLaws
  import opened Rollback

  /** What must be known of the administrator that took the place of another one. */
  predicate TookPlace(e: AdminInfo, newAdmin: Element, replaced: AdminInfo, permission: seq<string>) {
    && e.packageName == newAdmin.bundleName && e.className == newAdmin.abilityName
    && e.adminType == ENT && !e.isDebug && e.enableSource == REPLACE_SOURCE
    && e.entName == replaced.entName && e.entDesc == replaced.entDesc && e.permission == permission
  }

  /** It has a row of its own under the default user. */
  ghost predicate RowTookPlace(rows: seq<Row>, newAdmin: Element, replaced: AdminInfo, permission: seq<string>) {
    exists i :: 0 <= i < |rows| && rows[i].userId == DEFAULT_USER_ID &&
                TookPlace(rows[i].info, newAdmin, replaced, permission)
  }

  /** All that a replacement asks for. */
  ghost predicate Replaces(admins: Admins, oldAdmin: Element, newAdmin: Element, env: ReplaceEnv) {
    var outgoing, incoming := AdminByPkgName(admins, oldAdmin.bundleName, DEFAULT_USER_ID),
                      AdminByPkgName(admins, newAdmin.bundleName, DEFAULT_USER_ID);
    && !env.maintenance && env.permitted && env.abilityFound && env.permission.Some? && !SomeWithFlag(admins, true)
    && outgoing.Some? && outgoing.value.adminType == ENT && outgoing.value.className == oldAdmin.abilityName
    && outgoing.value.runningMode != MULTI_USER
    && (incoming.Some? ==>
        incoming.value.adminType == ENT && !incoming.value.isDebug && incoming.value.className == newAdmin.abilityName)
  }

  /** The super administrator found by its type is the one found by its name. */
  lemma SuperIs(admins: Admins, name: string)
    requires Safe(admins) && !AnyDebug(admins, true)
    ensures var found, byType := AdminByPkgName(admins, name, DEFAULT_USER_ID), GetSuperAdmin(admins);
            && (byType.Some? ==> byType.value.adminType == ENT)
            && (byType.Some? && byType.value.packageName == name ==> found == byType)
            && (found.Some? && found.value.adminType == ENT ==> byType == found && found.value.packageName == name)
  {
    var list := ListOf(admins, DEFAULT_USER_ID);
    assert ListSafe(list, DEFAULT_USER_ID);
    AnyDebugIs(admins, true);
    LookupIs(admins, name, DEFAULT_USER_ID);
    CopiesKept(list);
    if GetSuperAdmin(admins).Some? {
      SuperStands(list, ENT);
      if GetSuperAdmin(admins).value.packageName == name {
        StandsNamed(list, GetSuperAdmin(admins).value);
        StandsUnique(list, GetSuperAdmin(admins).value, AdminByPkgName(admins, name, DEFAULT_USER_ID).value);
      }
    }
    var found := AdminByPkgName(admins, name, DEFAULT_USER_ID);
    if found.Some? && found.value.adminType == ENT {
      var i :| 0 <= i < |list| && CreateAdmin(list[i]) == Some(found.value);
      FindTypeFinds(Copies(list), ENT, i);
      StandsNoDebug(list, found.value);
      StandsNoDebug(list, GetSuperAdmin(admins).value);
      OfficialIsOne(list, found.value, GetSuperAdmin(admins).value);
    }
  }

  lemma StandsNamed(list: seq<AdminInfo>, e: AdminInfo)
    requires StandsFor(e, list)
    ensures Named(list, e.packageName)
  {
    var i :| 0 <= i < |list| && CreateAdmin(list[i]) == Some(e);
    assert list[i].packageName == e.packageName;
  }

  lemma StandsUnique(list: seq<AdminInfo>, e: AdminInfo, f: AdminInfo)
    requires UniqueNames(list) && StandsFor(e, list) && StandsFor(f, list) && e.packageName == f.packageName
    ensures e == f
  {
    var i :| 0 <= i < |list| && CreateAdmin(list[i]) == Some(e);
    var k :| 0 <= k < |list| && CreateAdmin(list[k]) == Some(f);
    SamePlace(list, i, k);
  }

  lemma SamePlace(list: seq<AdminInfo>, i: nat, k: nat)
    requires UniqueNames(list) && i < |list| && k < |list| && list[i].packageName == list[k].packageName
    ensures i == k
  {
  }

  /** The checks let a replacement through exactly when all it asks for holds. */
  lemma ReplaceCheckIff(admins: Admins, oldAdmin: Element, newAdmin: Element, env: ReplaceEnv)
    requires Safe(admins)
    ensures ReplaceCheck(admins, oldAdmin, newAdmin, env) == LifeOk <==> Replaces(admins, oldAdmin, newAdmin, env)
  {
    FlagIs(admins, true);
    if !AnyDebug(admins, true) { SuperIs(admins, oldAdmin.bundleName); }
  }

  /** What each code of the checks means, for a roster with a super administrator of the old name. */
  lemma ReplaceRefusals(admins: Admins, oldAdmin: Element, newAdmin: Element, env: ReplaceEnv)
    requires Safe(admins) && !SomeWithFlag(admins, true)
    ensures var err := ReplaceCheck(admins, oldAdmin, newAdmin, env);
            var outgoing, incoming := AdminByPkgName(admins, oldAdmin.bundleName, DEFAULT_USER_ID),
                                      AdminByPkgName(admins, newAdmin.bundleName, DEFAULT_USER_ID);
            var there := outgoing.Some? && outgoing.value.adminType == ENT &&
                         outgoing.value.className == oldAdmin.abilityName;
            var asked := !env.maintenance && env.permitted;
            var fits := asked && there && env.abilityFound && (incoming.Some? ==>
              incoming.value.adminType == ENT && !incoming.value.isDebug &&
                incoming.value.className == newAdmin.abilityName);
            && (err == PermissionDenied <==> !env.maintenance && !env.permitted)
            && (err == AdminInactive <==> asked && !there)
            && (err == ComponentInvalid <==> asked && there && !env.abilityFound)
            && (err == Abnormal <==> fits && env.permission.None?)
            && (err == LifeOk || err == PermissionDenied || err == AdminInactive || err == ComponentInvalid ||
                err == Abnormal || err == ReplaceAdminFailed)
  {
    FlagIs(admins, true);
    SuperIs(admins, oldAdmin.bundleName);
  }

  // ----- Keeping the policies -----

  lemma UniqueIsFirst(list: seq<AdminInfo>, k: nat)
    requires UniqueNames(list) && k < |list|
    ensures FirstNamed(list, list[k].packageName, k)
  {
  }

  /** The renaming writes all it has to write. */
  ghost predicate AllWritten(admins: Admins, name: string, io: ReplaceIo) {
    io.available && io.replaced && |FoundChildren(admins, name)| <= io.renamed
  }

  /** After a complete replacement that keeps the policies the new administrator is found, an official super
      administrator with the ability of the call, marked as a replacement, with the enterprise name and description of
      the old one, and with its permissions; and the flag is on. */
  lemma KeepingTakesPlace(l: Life, oldAdmin: Element, newAdmin: Element, env: ReplaceEnv, io: ReplaceIo,
                          back: ReplaceIo)
    requires Safe(l.roster.admins) && ReplaceCheck(l.roster.admins, oldAdmin, newAdmin, env) == LifeOk
    requires AllWritten(l.roster.admins, oldAdmin.bundleName, io)
    ensures var l' := ReplaceKeepingSpec(l, oldAdmin, newAdmin, env, true, io, back);
            var replaced := AdminByPkgName(l.roster.admins, oldAdmin.bundleName, DEFAULT_USER_ID);
            var now := AdminByPkgName(l'.roster.admins, newAdmin.bundleName, DEFAULT_USER_ID);
            && l'.enabled && Safe(l'.roster.admins) && replaced.Some? && now.Some?
            && TookPlace(now.value, newAdmin, replaced.value, replaced.value.permission)
  {
    var admins, l' := l.roster.admins, ReplaceKeepingSpec(l, oldAdmin, newAdmin, env, true, io, back);
    var e := ReplacedAdmin(admins, oldAdmin);
    var info := NewSuperAdmin(e, newAdmin, env.permission.value);
    OldIsOnly(admins, oldAdmin, newAdmin, env);
    OldIsSuper(admins, oldAdmin, newAdmin, env);
    CompleteRenames(l.roster, e.packageName, info, io);
    KeepPolicySafe(l.roster, oldAdmin, newAdmin, env, env.permission.value, true, io, back);
    assert l'.roster.admins == Renamed(admins, e.packageName, info);
    RenamedLists(admins, e.packageName, info, DEFAULT_USER_ID);
    RenamedIsFound(l'.roster.admins, ListOf(admins, DEFAULT_USER_ID), e, info);
  }

  lemma RenamedIsFound(admins': Admins, list: seq<AdminInfo>, e: AdminInfo, info: AdminInfo)
    requires Safe(admins') && ListOf(admins', DEFAULT_USER_ID) == RenamedList(list, e.packageName, info) && e in list
    requires e.adminType == ENT
    ensures var now := AdminByPkgName(admins', info.packageName, DEFAULT_USER_ID);
            now.Some? && now.value == e.(packageName := info.packageName, className := info.className,
                                         enableSource := info.enableSource)
  {
    var list' := ListOf(admins', DEFAULT_USER_ID);
    var k :| 0 <= k < |list| && list[k] == e;
    RenamedListAt(list, e.packageName, info, k);
    assert ListSafe(list', DEFAULT_USER_ID);
    UniqueIsFirst(list', k);
    LookupFinds(admins', info.packageName, DEFAULT_USER_ID);
  }

  /** And its row has the same, with the permissions of the call. */
  lemma KeepingRowTakesPlace(l: Life, oldAdmin: Element, newAdmin: Element, env: ReplaceEnv, io: ReplaceIo,
                             back: ReplaceIo)
    requires Safe(l.roster.admins) && InSync(l.roster)
    requires ReplaceCheck(l.roster.admins, oldAdmin, newAdmin, env) == LifeOk
    requires AllWritten(l.roster.admins, oldAdmin.bundleName, io)
    ensures var l' := ReplaceKeepingSpec(l, oldAdmin, newAdmin, env, true, io, back);
            var replaced := AdminByPkgName(l.roster.admins, oldAdmin.bundleName, DEFAULT_USER_ID);
            && replaced.Some? && env.permission.Some?
            && RowTookPlace(l'.roster.rows, newAdmin, replaced.value, env.permission.value)
  {
    var r, l' := l.roster, ReplaceKeepingSpec(l, oldAdmin, newAdmin, env, true, io, back);
    var e := ReplacedAdmin(r.admins, oldAdmin);
    var info := NewSuperAdmin(e, newAdmin, env.permission.value);
    OldIsOnly(r.admins, oldAdmin, newAdmin, env);
    OldIsSuper(r.admins, oldAdmin, newAdmin, env);
    CompleteRenames(r, e.packageName, info, io);
    var k :| 0 <= k < |ListOf(r.admins, DEFAULT_USER_ID)| && ListOf(r.admins, DEFAULT_USER_ID)[k] == e;
    assert ListInSync(ListOf(r.admins, DEFAULT_USER_ID), RowsOf(r.rows, DEFAULT_USER_ID));
    var i := RowAt(r.rows, DEFAULT_USER_ID, k);
    OwnRowTakesPlace(r.rows[i], FoundChildren(r.admins, e.packageName), e, newAdmin, env.permission.value);
    assert l'.roster.rows[i] == RenamedRow(r.rows[i], FoundChildren(r.admins, e.packageName), e.packageName, info);
  }

  lemma OwnRowTakesPlace(row: Row, children: seq<string>, e: AdminInfo, newAdmin: Element, permission: seq<string>)
    requires row.userId == DEFAULT_USER_ID && e == LoadOne(row.info)
    ensures var row' := RenamedRow(row, children, e.packageName, NewSuperAdmin(e, newAdmin, permission));
            row'.userId == DEFAULT_USER_ID && TookPlace(row'.info, newAdmin, e, permission)
  {
  }

  lemma {:induction false} RowAt(rows: seq<Row>, u: int, k: nat) returns (i: nat)
    requires k < |RowsOf(rows, u)|
    ensures i < |rows| && rows[i] == Row(u, RowsOf(rows, u)[k])
  {
    var n := |rows| - 1;
    if rows[n].userId == u && k == |RowsOf(rows[..n], u)| {
      i := n;
    } else {
      i := RowAt(rows[..n], u, k);
    }
  }

  // ----- Removing first -----

  /** After a removal that left no entry of the old name, and the save of the new one, the new administrator is found
      with all this and the permissions of the call, and so is its row. */
  lemma RemovingTakesPlace(l: Life, oldAdmin: Element, newAdmin: Element, env: ReplaceEnv, dels: seq<(int, string)>)
    requires Safe(l.roster.admins) && ReplaceCheck(l.roster.admins, oldAdmin, newAdmin, env) == LifeOk
    requires !Named(ListOf(DeleteAll(l.roster.admins, dels), DEFAULT_USER_ID), oldAdmin.bundleName)
    ensures var l' := ReplaceRemovingSpec(l, oldAdmin, newAdmin, env, dels, true, Done);
            var replaced := AdminByPkgName(l.roster.admins, oldAdmin.bundleName, DEFAULT_USER_ID);
            var now := AdminByPkgName(l'.roster.admins, newAdmin.bundleName, DEFAULT_USER_ID);
            && l'.enabled && Safe(l'.roster.admins) && replaced.Some? && now.Some? && env.permission.Some?
            && TookPlace(now.value, newAdmin, replaced.value, env.permission.value)
            && now.value.parentAdminName == "" && now.value.managedEvents == [] && now.value.runningMode == DEFAULT
            && RowTookPlace(l'.roster.rows, newAdmin, replaced.value, env.permission.value)
  {
    var after := DeleteAllIn(l.roster, dels);
    var e := ReplacedAdmin(l.roster.admins, oldAdmin);
    var info := NewSuperAdmin(e, newAdmin, env.permission.value);
    DeleteAllSafe(l.roster.admins, dels);
    ReplacementSafe(l.roster, oldAdmin, newAdmin, env, dels, env.permission.value, after.rows, Done);
    NameIsFree(l.roster.admins, oldAdmin, newAdmin, env, dels);
    SafeIsKnown(after.admins, DEFAULT_USER_ID);
    NewIsFound(after, DEFAULT_USER_ID, info);
    NewRow(after, info);
    assert TookPlace(info, newAdmin, e, env.permission.value);
  }

  lemma NameIsFree(admins: Admins, oldAdmin: Element, newAdmin: Element, env: ReplaceEnv, dels: seq<(int, string)>)
    requires Safe(admins) && ReplaceCheck(admins, oldAdmin, newAdmin, env) == LifeOk
    requires !Named(ListOf(DeleteAll(admins, dels), DEFAULT_USER_ID), oldAdmin.bundleName)
    ensures AdminByPkgName(DeleteAll(admins, dels), newAdmin.bundleName, DEFAULT_USER_ID) == None
  {
    var left := ListOf(DeleteAll(admins, dels), DEFAULT_USER_ID);
    NewNameIsFree(admins, oldAdmin, newAdmin, env);
    SublistOf(admins, dels, DEFAULT_USER_ID);
    forall i | 0 <= i < |left| ensures left[i].packageName != newAdmin.bundleName { assert left[i] in left; }
    DeleteAllSafe(admins, dels);
    SafeIsKnown(DeleteAll(admins, dels), DEFAULT_USER_ID);
    LookupFinds(DeleteAll(admins, dels), newAdmin.bundleName, DEFAULT_USER_ID);
  }

  lemma NewRow(r: Roster, info: AdminInfo)
    requires AdminByPkgName(r.admins, info.packageName, DEFAULT_USER_ID).None?
    requires info.managedEvents == [] && info.accessiblePolicies == []
    ensures var rows := SetAdminValueSpec(r, DEFAULT_USER_ID, info, Done).roster.rows;
            |rows| > 0 && rows[|rows| - 1] == Row(DEFAULT_USER_ID, info)
  {
  }

  // ----- When a write fails -----

  /** The children whose rows were written. */
  function Written(admins: Admins, name: string, available: bool, renamed: nat): seq<string> {
    var children := FoundChildren(admins, name);
    if !available then [] else if renamed < |children| then children[..renamed] else children
  }

  /** A row of one of these children moves to the new parent. */
  function MovedRow(row: Row, children: seq<string>, from: string, to: string): Row {
    if row.info.packageName in children && row.info.parentAdminName == from
    then row.(info := row.info.(parentAdminName := to)) else row
  }

  /** What each code of the renaming means, and what a failed one leaves: the roster as it was, and in the table the
      rows of the children it got to under the new parent. */
  lemma FailedReplacementLeaves(r: Roster, name: string, info: AdminInfo, available: bool, renamed: nat,
                                replaced: bool, i: nat)
    requires i < |r.rows|
    ensures var s := ReplaceSuperAdminSpec(r, name, info, available, renamed, replaced);
            var all := |FoundChildren(r.admins, name)| <= renamed;
            && (s.err == StorageUnavailable <==> !available) && (s.err == SetParentError <==> available && !all)
            && (s.err == SystemAbnormally <==> available && all && !replaced)
            && (s.err == AdminOk <==> available && all && replaced)
            && (s.err != AdminOk ==>
                  && s.roster.admins == r.admins && |s.roster.rows| == |r.rows|
                  && s.roster.rows[i] ==
                     MovedRow(r.rows[i], Written(r.admins, name, available, renamed), name, info.packageName))
  {
    ParentRowsRenamed(r.rows, Written(r.admins, name, available, renamed), name, info.packageName, i);
  }

  lemma {:induction false} SameRowAt(rows: seq<Row>, rows': seq<Row>, u: int, k: nat) returns (i: nat)
    requires k < |RowsOf(rows, u)| && |rows'| == |rows|
    requires forall j :: 0 <= j < |rows| ==> rows'[j].userId == rows[j].userId
    ensures |RowsOf(rows', u)| == |RowsOf(rows, u)| && i < |rows|
    ensures rows[i] == Row(u, RowsOf(rows, u)[k]) && rows'[i] == Row(u, RowsOf(rows', u)[k])
  {
    var n := |rows| - 1;
    RowsOfSameLength(rows[..n], rows'[..n], u);
    if rows[n].userId == u && k == |RowsOf(rows[..n], u)| {
      i := n;
    } else {
      i := SameRowAt(rows[..n], rows'[..n], u, k);
    }
  }

  lemma {:induction false} RowsOfSameLength(rows: seq<Row>, rows': seq<Row>, u: int)
    requires |rows'| == |rows| && forall j :: 0 <= j < |rows| ==> rows'[j].userId == rows[j].userId
    ensures |RowsOf(rows', u)| == |RowsOf(rows, u)|
  {
    if rows != [] { RowsOfSameLength(rows[..|rows| - 1], rows'[..|rows| - 1], u); }
  }

  /** So a failed replacement leaves the roster a restart would load exactly when it had written no child's row, or the
      two names are the same; otherwise a restart loads these children under the new name, while the administrator keeps
      the old one. */
  lemma FailedReplacementSyncIff(r: Roster, name: string, info: AdminInfo, available: bool, renamed: nat,
                                 replaced: bool)
    requires InSync(r) && ReplaceSuperAdminSpec(r, name, info, available, renamed, replaced).err != AdminOk
    ensures InSync(ReplaceSuperAdminSpec(r, name, info, available, renamed, replaced).roster) <==>
            name == info.packageName || !available || renamed == 0 || FoundChildren(r.admins, name) == []
  {
    var s := ReplaceSuperAdminSpec(r, name, info, available, renamed, replaced).roster;
    var moved := Written(r.admins, name, available, renamed);
    RowsMoved(r, name, info, available, renamed, replaced);
    if name == info.packageName || moved == [] {
      assert s.rows == r.rows;
    } else {
      ChildrenAreListed(ListOf(r.admins, DEFAULT_USER_ID), name, moved[0]);
      MovedChildDiffers(r, s, moved, name, info.packageName);
    }
  }

  lemma RowsMoved(r: Roster, name: string, info: AdminInfo, available: bool, renamed: nat, replaced: bool)
    requires ReplaceSuperAdminSpec(r, name, info, available, renamed, replaced).err != AdminOk
    ensures var s := ReplaceSuperAdminSpec(r, name, info, available, renamed, replaced).roster;
            && s.admins == r.admins && |s.rows| == |r.rows|
            && forall i :: 0 <= i < |r.rows| ==>
                 s.rows[i] == MovedRow(r.rows[i], Written(r.admins, name, available, renamed), name, info.packageName)
  {
    var s := ReplaceSuperAdminSpec(r, name, info, available, renamed, replaced).roster;
    forall i | 0 <= i < |r.rows|
      ensures |s.rows| == |r.rows| && s.rows[i] ==
              MovedRow(r.rows[i], Written(r.admins, name, available, renamed), name, info.packageName)
    {
      FailedReplacementLeaves(r, name, info, available, renamed, replaced, i);
    }
    RenamedLength(r.rows, Written(r.admins, name, available, renamed), name, info.packageName);
  }

  lemma {:induction false} RenamedLength(rows: seq<Row>, children: seq<string>, from: string, to: string)
    ensures |RenameChildRows(rows, children, from, to)| == |rows|
  {
    if children != [] { RenamedLength(rows, children[..|children| - 1], from, to); }
  }

  lemma MovedChildDiffers(r: Roster, s: Roster, moved: seq<string>, from: string, to: string)
    requires InSync(r) && s.admins == r.admins && |s.rows| == |r.rows| && moved != [] && from != to
    requires forall i :: 0 <= i < |r.rows| ==> s.rows[i] == MovedRow(r.rows[i], moved, from, to)
    requires NamedUnder(ListOf(r.admins, DEFAULT_USER_ID), moved[0], from)
    ensures !InSync(s)
  {
    var list := ListOf(r.admins, DEFAULT_USER_ID);
    var k :| 0 <= k < |list| && list[k].packageName == moved[0] && ChildUnder(list[k], from);
    assert ListInSync(list, RowsOf(r.rows, DEFAULT_USER_ID));
    var i := SameRowAt(r.rows, s.rows, DEFAULT_USER_ID, k);
    assert list[k] == LoadOne(r.rows[i].info) && list[k] != LoadOne(s.rows[i].info);
    assert !ListInSync(ListOf(s.admins, DEFAULT_USER_ID), RowsOf(s.rows, DEFAULT_USER_ID));
  }

  // ----- The next replacement -----

  lemma {:induction false} FindTypeFinds(list: seq<AdminInfo>, t: AdminType, i: nat)
    requires i < |list| && list[i].adminType == t
    ensures FindType(list, t).Some?
  {
    if list[0].adminType != t { FindTypeFinds(list[1..], t, i - 1); }
  }

  /** Whoever took the place of another may be replaced in turn: no later replacement that names it is told that there
      is no such super administrator. */
  lemma MayBeReplacedAgain(admins: Admins, now: Element, next: Element, env: ReplaceEnv)
    requires Safe(admins)
    requires var e := AdminByPkgName(admins, now.bundleName, DEFAULT_USER_ID);
             e.Some? && e.value.adminType == ENT && !e.value.isDebug && e.value.className == now.abilityName
    ensures ReplaceCheck(admins, now, next, env) != AdminInactive
  {
    var list, e := ListOf(admins, DEFAULT_USER_ID), AdminByPkgName(admins, now.bundleName, DEFAULT_USER_ID).value;
    assert ListSafe(list, DEFAULT_USER_ID);
    LookupIs(admins, now.bundleName, DEFAULT_USER_ID);
    FoundMode(admins, now.bundleName, DEFAULT_USER_ID);
    AnyDebugIs(admins, true);
    CopiesKept(list);
    var i :| 0 <= i < |list| && CreateAdmin(list[i]) == Some(e);
    FindTypeFinds(Copies(list), ENT, i);
    SuperStands(list, ENT);
    StandsNoDebug(list, GetSuperAdmin(admins).value);
    OfficialIsOne(list, e, GetSuperAdmin(admins).value);
  }

  lemma ReplacedTwice(l: Life, oldAdmin: Element, newAdmin: Element, env: ReplaceEnv, io: ReplaceIo, back: ReplaceIo,
                      next: Element, again: ReplaceEnv)
    requires Safe(l.roster.admins) && ReplaceCheck(l.roster.admins, oldAdmin, newAdmin, env) == LifeOk
    requires AllWritten(l.roster.admins, oldAdmin.bundleName, io)
    ensures ReplaceCheck(ReplaceKeepingSpec(l, oldAdmin, newAdmin, env, true, io, back).roster.admins, newAdmin, next,
                         again) != AdminInactive
  {
    KeepingTakesPlace(l, oldAdmin, newAdmin, env, io, back);
    MayBeReplacedAgain(ReplaceKeepingSpec(l, oldAdmin, newAdmin, env, true, io, back).roster.admins, newAdmin,
                       next, again);
  }

  lemma RemovedAndReplacedAgain(l: Life, oldAdmin: Element, newAdmin: Element, env: ReplaceEnv,
                                dels: seq<(int, string)>, next: Element, again: ReplaceEnv)
    requires Safe(l.roster.admins) && ReplaceCheck(l.roster.admins, oldAdmin, newAdmin, env) == LifeOk
    requires !Named(ListOf(DeleteAll(l.roster.admins, dels), DEFAULT_USER_ID), oldAdmin.bundleName)
    ensures ReplaceCheck(ReplaceRemovingSpec(l, oldAdmin, newAdmin, env, dels, true, Done).roster.admins,
                         newAdmin, next, again) != AdminInactive
  {
    RemovingTakesPlace(l, oldAdmin, newAdmin, env, dels);
    MayBeReplacedAgain(ReplaceRemovingSpec(l, oldAdmin, newAdmin, env, dels, true, Done).roster.admins, newAdmin, next,
      again);
  }
}
