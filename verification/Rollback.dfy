/** A replacement that keeps the policies, in the table and in the roster: when a restart loads what it leaves, and what
    its rollback restores, which renames the administrator back when the policies cannot be renamed. */
module Rollback {
  import opened PolicyModel
  import opened ManagerModel
  import opened AdminModel
  import opened LifecycleModel
  import opened LifecycleSafety
  import opened RosterSync

  // ----- The children -----

  ghost predicate HasChild(list: seq<AdminInfo>, parentName: string, child: string) {
    exists i :: 0 <= i < |list| && IsChildOf(list[i], parentName) && list[i].packageName == child
  }

  lemma {:induction false} ChildrenAre(list: seq<AdminInfo>, parentName: string, child: string)
    ensures child in ChildrenOf(list, parentName) <==> HasChild(list, parentName, child)
  {
    if list != [] {
      var init, last := list[..|list| - 1], list[|list| - 1];
      ChildrenAre(init, parentName, child);
      if HasChild(init, parentName, child) {
        var i :| 0 <= i < |init| && IsChildOf(init[i], parentName) && init[i].packageName == child;
        assert IsChildOf(list[i], parentName) && list[i].packageName == child;
      }
    }
  }

  lemma CopiedChildren(list: seq<AdminInfo>, parentName: string, child: string)
    requires AllKnown(list)
    ensures child in ChildrenOf(Copies(list), parentName) <==> HasChild(list, parentName, child)
  {
    CopiesKept(list);
    ChildrenAre(Copies(list), parentName, child);
    forall i | 0 <= i < |list|
      ensures IsChildOf(list[i], parentName) <==> IsChildOf(Copies(list)[i], parentName)
      ensures list[i].packageName == Copies(list)[i].packageName
    {
    }
    if HasChild(list, parentName, child) {
      var i :| 0 <= i < |list| && IsChildOf(list[i], parentName) && list[i].packageName == child;
      assert IsChildOf(Copies(list)[i], parentName);
    }
  }

  /** Renaming the parent touches exactly the rows of the named children under the old parent, whatever their user. */
  lemma {:induction false} ParentRowsRenamed(rows: seq<Row>, children: seq<string>, from: string, to: string, i: nat)
    requires i < |rows|
    ensures |RenameChildRows(rows, children, from, to)| == |rows|
    ensures RenameChildRows(rows, children, from, to)[i] ==
            if rows[i].info.packageName in children && rows[i].info.parentAdminName == from
            then rows[i].(info := rows[i].info.(parentAdminName := to)) else rows[i]
  {
    if children != [] { ParentRowsRenamed(rows, children[..|children| - 1], from, to, i); }
  }

  // ----- The roster -----

  /** Everybody of the old name is the administrator that was looked up. */
  ghost predicate OnlyOld(list: seq<AdminInfo>, oldInfo: AdminInfo) {
    forall i :: 0 <= i < |list| && list[i].packageName == oldInfo.packageName ==> list[i] == oldInfo
  }

  ghost predicate Childless(list: seq<AdminInfo>, parentName: string) {
    forall i :: 0 <= i < |list| ==> !IsChildOf(list[i], parentName)
  }

  function ThereAndBack(list: seq<AdminInfo>, oldInfo: AdminInfo, newInfo: AdminInfo): seq<AdminInfo> {
    RenamedList(RenamedList(list, oldInfo.packageName, newInfo), newInfo.packageName, oldInfo)
  }

  lemma ListRestoredIff(list: seq<AdminInfo>, oldInfo: AdminInfo, newInfo: AdminInfo)
    requires OnlyOld(list, oldInfo) && (oldInfo.packageName == newInfo.packageName || !Named(list, newInfo.packageName))
    ensures ThereAndBack(list, oldInfo, newInfo) == list <==>
            oldInfo.packageName == newInfo.packageName || Childless(list, newInfo.packageName)
  {
    var there, back := RenamedList(list, oldInfo.packageName, newInfo), ThereAndBack(list, oldInfo, newInfo);
    forall i | 0 <= i < |list|
      ensures back[i] == list[i] <==>
              oldInfo.packageName == newInfo.packageName || !IsChildOf(list[i], newInfo.packageName)
    {
      RenamedListAt(list, oldInfo.packageName, newInfo, i);
      RenamedListAt(there, newInfo.packageName, oldInfo, i);
    }
  }

  lemma FoundIs(list: seq<AdminInfo>, e: AdminInfo, s: AdminInfo)
    requires UniqueNames(list) && s in list && s.adminType == ENT && StandsFor(e, list) &&
             e.packageName == s.packageName
    ensures e == s && OnlyOld(list, e)
  {
    var k :| 0 <= k < |list| && list[k] == s;
    var j :| 0 <= j < |list| && CreateAdmin(list[j]) == Some(e);
    assert list[j].packageName == list[k].packageName;
    assert j == k;
  }

  /** When the checks pass, the administrator looked up is the only one of the old name, and no child of anybody. */
  lemma OldIsOnly(admins: Admins, oldAdmin: Element, newAdmin: Element, env: ReplaceEnv)
    requires Safe(admins) && MayReplace(admins, oldAdmin, newAdmin, env)
    ensures var e := ReplacedAdmin(admins, oldAdmin);
            && e.packageName == oldAdmin.bundleName && e.adminType == ENT
            && OnlyOld(ListOf(admins, DEFAULT_USER_ID), e)
  {
    var list, e := ListOf(admins, DEFAULT_USER_ID), ReplacedAdmin(admins, oldAdmin);
    assert ListSafe(list, DEFAULT_USER_ID);
    LookupIs(admins, oldAdmin.bundleName, DEFAULT_USER_ID);
    OldSuperWasOnly(admins, oldAdmin, newAdmin, env);
    var s :| s in list && IsOfficialSuper(s) && s.packageName == oldAdmin.bundleName;
    FoundIs(list, e, s);
  }

  /** The children of the new name after the renaming: those of both names before. */
  lemma ChildrenAfter(list: seq<AdminInfo>, oldInfo: AdminInfo, newInfo: AdminInfo, child: string)
    requires OnlyOld(list, oldInfo) && oldInfo.adminType == ENT && oldInfo.packageName != newInfo.packageName
    ensures var list' := RenamedList(list, oldInfo.packageName, newInfo);
            HasChild(list', newInfo.packageName, child) <==>
            HasChild(list, oldInfo.packageName, child) || HasChild(list, newInfo.packageName, child)
  {
    var list' := RenamedList(list, oldInfo.packageName, newInfo);
    ReplacementRenames(list, oldInfo.packageName, newInfo);
    forall i | 0 <= i < |list|
      ensures IsChildOf(list'[i], newInfo.packageName) ==> list'[i].packageName == list[i].packageName
    {
      RenamedListAt(list, oldInfo.packageName, newInfo, i);
    }
    if HasChild(list', newInfo.packageName, child) {
      var i :| 0 <= i < |list'| && IsChildOf(list'[i], newInfo.packageName) && list'[i].packageName == child;
      assert list[i].packageName == child;
    }
    if HasChild(list, oldInfo.packageName, child) {
      var i :| 0 <= i < |list| && IsChildOf(list[i], oldInfo.packageName) && list[i].packageName == child;
      assert IsChildOf(list'[i], newInfo.packageName);
    }
    if HasChild(list, newInfo.packageName, child) {
      var i :| 0 <= i < |list| && IsChildOf(list[i], newInfo.packageName) && list[i].packageName == child;
      assert IsChildOf(list'[i], newInfo.packageName);
    }
  }

  // ----- The rows -----

  /** What a complete renaming does to one row, when the children found are these. */
  function RenamedRow(row: Row, children: seq<string>, from: string, info: AdminInfo): Row {
    var moved := if row.info.packageName in children && row.info.parentAdminName == from
                 then row.(info := row.info.(parentAdminName := info.packageName)) else row;
    if RowMatch(moved, DEFAULT_USER_ID, from) then moved.(info := Apply(ReplaceBucket(info), moved.info)) else moved
  }

  function FoundChildren(admins: Admins, parentName: string): seq<string> {
    ChildrenOf(Copies(ListOf(admins, DEFAULT_USER_ID)), parentName)
  }

  /** All writes of the renaming succeed. */
  predicate Complete(r: Roster, from: string, info: AdminInfo, io: ReplaceIo) {
    io.available && |FoundChildren(r.admins, from)| <= io.renamed && io.replaced
  }

  function RenamedRows(rows: seq<Row>, children: seq<string>, from: string, info: AdminInfo): seq<Row> {
    seq(|rows|, i requires 0 <= i < |rows| => RenamedRow(rows[i], children, from, info))
  }

  function RenamedRoster(r: Roster, from: string, info: AdminInfo): Roster {
    Roster(Renamed(r.admins, from, info), RenamedRows(r.rows, FoundChildren(r.admins, from), from, info))
  }

  lemma CompleteRenames(r: Roster, from: string, info: AdminInfo, io: ReplaceIo)
    requires Complete(r, from, info, io)
    ensures ReplaceSuperAdminSpec(r, from, info, io.available, io.renamed, io.replaced) ==
            RosterResult(RenamedRoster(r, from, info), AdminOk)
  {
    var children := FoundChildren(r.admins, from);
    var rows := RenameChildRows(r.rows, children, from, info.packageName);
    RowsKept(r.rows, children, from, info.packageName);
    forall i | 0 <= i < |r.rows|
      ensures ChangeRows(rows, DEFAULT_USER_ID, from, ReplaceBucket(info))[i] ==
              RenamedRow(r.rows[i], children, from, info)
    {
      ParentRowsRenamed(r.rows, children, from, info.packageName, i);
    }
    assert ChangeRows(rows, DEFAULT_USER_ID, from, ReplaceBucket(info)) == RenamedRoster(r, from, info).rows;
  }

  lemma {:induction false} RowsKept(rows: seq<Row>, children: seq<string>, from: string, to: string)
    ensures |RenameChildRows(rows, children, from, to)| == |rows|
  {
    if children != [] { RowsKept(rows, children[..|children| - 1], from, to); }
  }

  /** A row of a child of either name, under any user, that had the new name as parent before. */
  ghost predicate Stolen(list: seq<AdminInfo>, from: string, to: string, row: Row) {
    && row.info.parentAdminName == to
    && (HasChild(list, from, row.info.packageName) || HasChild(list, to, row.info.packageName))
  }

  /** The administrator's own row is what its entry was loaded from, and nothing was cut at loading. */
  ghost predicate OwnRow(row: Row, e: AdminInfo) {
    RowMatch(row, DEFAULT_USER_ID, e.packageName) ==> LoadOne(row.info) == e
  }

  predicate ReadsWhole(row: Row, name: string) {
    RowMatch(row, DEFAULT_USER_ID, name) ==> |row.info.permission| <= DEFAULT_LOOP_MAX_SIZE
  }

  /** One row there and back, when `kids` are the children of the old name and `all` those of both. */
  lemma RowRestoredIff(list: seq<AdminInfo>, row: Row, e: AdminInfo, info: AdminInfo, kids: seq<string>,
                       all: seq<string>)
    requires OwnRow(row, e) && e.adminType == ENT && info.adminType == ENT
    requires info.entName == e.entName && info.entDesc == e.entDesc
    requires RowMatch(row, DEFAULT_USER_ID, info.packageName) ==> e.packageName == info.packageName
    requires e.packageName !in kids && e.packageName !in all
    requires info.packageName !in kids && info.packageName !in all
    requires forall c :: c in kids <==> HasChild(list, e.packageName, c)
    requires e.packageName != info.packageName ==>
               forall c :: c in all <==> HasChild(list, e.packageName, c) || HasChild(list, info.packageName, c)
    ensures RenamedRow(RenamedRow(row, kids, e.packageName, info), all, info.packageName, e) == row <==>
            && (e.packageName == info.packageName || !Stolen(list, e.packageName, info.packageName, row))
            && ReadsWhole(row, e.packageName)
  {
    var there := RenamedRow(row, kids, e.packageName, info);
    var back := RenamedRow(there, all, info.packageName, e);
    var c := row.info.packageName;
    assert c in kids <==> HasChild(list, e.packageName, c);
    if RowMatch(row, DEFAULT_USER_ID, e.packageName) {
      OwnRowRestoredIff(row, e, info);
      assert there == row.(info := Apply(ReplaceBucket(info), row.info));
      assert back == row.(info := Apply(ReplaceBucket(e), there.info));
      if e.packageName != info.packageName { assert c !in all; }
    }
  }

  lemma OwnRowRestoredIff(row: Row, e: AdminInfo, info: AdminInfo)
    requires LoadOne(row.info) == e && e.adminType == ENT && info.adminType == ENT
    requires info.entName == e.entName && info.entDesc == e.entDesc
    ensures Apply(ReplaceBucket(e), Apply(ReplaceBucket(info), row.info)) == row.info <==>
            |row.info.permission| <= DEFAULT_LOOP_MAX_SIZE
  {
  }

  lemma {:induction false} RowListed(rows: seq<Row>, u: int, i: nat)
    requires i < |rows| && rows[i].userId == u
    ensures exists k :: 0 <= k < |RowsOf(rows, u)| && RowsOf(rows, u)[k] == rows[i].info
  {
    var init, last := rows[..|rows| - 1], rows[|rows| - 1];
    if i == |rows| - 1 {
      assert RowsOf(rows, u)[|RowsOf(init, u)|] == last.info;
    } else {
      RowListed(init, u, i);
      var k :| 0 <= k < |RowsOf(init, u)| && RowsOf(init, u)[k] == rows[i].info;
      assert RowsOf(rows, u)[k] == rows[i].info;
    }
  }

  lemma {:induction false} ListedRow(rows: seq<Row>, u: int, k: nat)
    requires k < |RowsOf(rows, u)|
    ensures exists i :: 0 <= i < |rows| && rows[i] == Row(u, RowsOf(rows, u)[k])
  {
    var init, last := rows[..|rows| - 1], rows[|rows| - 1];
    if k == |RowsOf(init, u)| {
      assert rows[|rows| - 1] == Row(u, last.info);
    } else {
      ListedRow(init, u, k);
      var i :| 0 <= i < |init| && init[i] == Row(u, RowsOf(init, u)[k]);
      assert rows[i] == Row(u, RowsOf(rows, u)[k]);
    }
  }

  /** In step with the table, the default user's rows of the old name load as the administrator looked up, and there is
      none of a name nobody has. */
  lemma OwnRows(r: Roster, e: AdminInfo, to: string, i: nat)
    requires InSync(r) && OnlyOld(ListOf(r.admins, DEFAULT_USER_ID), e) && i < |r.rows|
    requires e.packageName == to || !Named(ListOf(r.admins, DEFAULT_USER_ID), to)
    ensures OwnRow(r.rows[i], e)
    ensures RowMatch(r.rows[i], DEFAULT_USER_ID, to) ==> e.packageName == to
  {
    if r.rows[i].userId == DEFAULT_USER_ID {
      RowListed(r.rows, DEFAULT_USER_ID, i);
      var list := ListOf(r.admins, DEFAULT_USER_ID);
      assert ListInSync(list, RowsOf(r.rows, DEFAULT_USER_ID));
      var k :| 0 <= k < |RowsOf(r.rows, DEFAULT_USER_ID)| && RowsOf(r.rows, DEFAULT_USER_ID)[k] == r.rows[i].info;
      assert list[k] == LoadOne(r.rows[i].info) && list[k].packageName == r.rows[i].info.packageName;
    }
  }

  // ----- Renaming there and back -----

  ghost predicate AnyStolen(r: Roster, from: string, to: string) {
    exists i :: 0 <= i < |r.rows| && Stolen(ListOf(r.admins, DEFAULT_USER_ID), from, to, r.rows[i])
  }

  ghost predicate ReadsWholeRow(r: Roster, name: string) {
    forall i :: 0 <= i < |r.rows| ==> ReadsWhole(r.rows[i], name)
  }

  /** What the rollback is about: an administrator that is the only one of its name, and a free new name. */
  ghost predicate Replaceable(r: Roster, e: AdminInfo, info: AdminInfo) {
    var list := ListOf(r.admins, DEFAULT_USER_ID);
    && Safe(r.admins) && InSync(r) && OnlyOld(list, e) && e.adminType == ENT && info.adminType == ENT
    && info.entName == e.entName && info.entDesc == e.entDesc
    && (e.packageName == info.packageName || !Named(list, info.packageName))
  }

  lemma KnownNames(r: Roster, e: AdminInfo, info: AdminInfo, name: string)
    requires Replaceable(r, e, info) && (name == e.packageName || name == info.packageName)
    ensures forall p :: !HasChild(ListOf(r.admins, DEFAULT_USER_ID), p, name)
  {
    var list := ListOf(r.admins, DEFAULT_USER_ID);
    forall i | 0 <= i < |list| && list[i].packageName == name ensures forall p :: !IsChildOf(list[i], p) {
      assert list[i].packageName == e.packageName;
    }
  }

  /** The children found by the two renamings. */
  lemma FoundBoth(r: Roster, e: AdminInfo, info: AdminInfo, c: string)
    requires Replaceable(r, e, info)
    ensures var list, between := ListOf(r.admins, DEFAULT_USER_ID), Renamed(r.admins, e.packageName, info);
            && (c in FoundChildren(r.admins, e.packageName) <==> HasChild(list, e.packageName, c))
            && (e.packageName != info.packageName ==>
                  (c in FoundChildren(between, info.packageName) <==>
                   HasChild(list, e.packageName, c) || HasChild(list, info.packageName, c)))
            && (e.packageName == info.packageName ==>
                  (c in FoundChildren(between, info.packageName) ==> HasChild(list, e.packageName, c)))
  {
    var list, between := ListOf(r.admins, DEFAULT_USER_ID), Renamed(r.admins, e.packageName, info);
    assert ListSafe(list, DEFAULT_USER_ID);
    CopiedChildren(list, e.packageName, c);
    RenamedSafe(r.admins, e.packageName, info);
    RenamedLists(r.admins, e.packageName, info, DEFAULT_USER_ID);
    var list' := ListOf(between, DEFAULT_USER_ID);
    assert ListSafe(list', DEFAULT_USER_ID);
    CopiedChildren(list', info.packageName, c);
    if e.packageName != info.packageName { ChildrenAfter(list, e, info, c); }
    else if HasChild(list', info.packageName, c) { SameNameChildren(list, e, info, c); }
  }

  lemma SameNameChildren(list: seq<AdminInfo>, e: AdminInfo, info: AdminInfo, c: string)
    requires e.packageName == info.packageName && HasChild(RenamedList(list, e.packageName, info), info.packageName, c)
    ensures HasChild(list, e.packageName, c)
  {
    var list' := RenamedList(list, e.packageName, info);
    var i :| 0 <= i < |list'| && IsChildOf(list'[i], info.packageName) && list'[i].packageName == c;
    RenamedListAt(list, e.packageName, info, i);
    assert IsChildOf(list[i], e.packageName);
  }

  lemma RowsRestoredIff(r: Roster, e: AdminInfo, info: AdminInfo)
    requires Replaceable(r, e, info)
    ensures RenamedRoster(RenamedRoster(r, e.packageName, info), info.packageName, e).rows == r.rows <==>
            && (e.packageName == info.packageName || !AnyStolen(r, e.packageName, info.packageName))
            && ReadsWholeRow(r, e.packageName)
  {
    var list := ListOf(r.admins, DEFAULT_USER_ID);
    var there := RenamedRoster(r, e.packageName, info);
    var back := RenamedRoster(there, info.packageName, e);
    var kids, all := FoundChildren(r.admins, e.packageName), FoundChildren(there.admins, info.packageName);
    forall i | 0 <= i < |r.rows|
      ensures back.rows[i] == r.rows[i] <==>
              && (e.packageName == info.packageName || !Stolen(list, e.packageName, info.packageName, r.rows[i]))
              && ReadsWhole(r.rows[i], e.packageName)
    {
      assert back.rows[i] == RenamedRow(RenamedRow(r.rows[i], kids, e.packageName, info), all, info.packageName, e);
      RowAtRestoredIff(r, e, info, i);
    }
  }

  lemma RowAtRestoredIff(r: Roster, e: AdminInfo, info: AdminInfo, i: nat)
    requires Replaceable(r, e, info) && i < |r.rows|
    ensures var kids := FoundChildren(r.admins, e.packageName);
            var all := FoundChildren(Renamed(r.admins, e.packageName, info), info.packageName);
            RenamedRow(RenamedRow(r.rows[i], kids, e.packageName, info), all, info.packageName, e) == r.rows[i] <==>
            && (e.packageName == info.packageName
                || !Stolen(ListOf(r.admins, DEFAULT_USER_ID), e.packageName, info.packageName, r.rows[i]))
            && ReadsWhole(r.rows[i], e.packageName)
  {
    var kids := FoundChildren(r.admins, e.packageName);
    var all := FoundChildren(Renamed(r.admins, e.packageName, info), info.packageName);
    forall c { FoundBoth(r, e, info, c); }
    KnownNames(r, e, info, e.packageName);
    KnownNames(r, e, info, info.packageName);
    OwnRows(r, e, info.packageName, i);
    RowRestoredIff(ListOf(r.admins, DEFAULT_USER_ID), r.rows[i], e, info, kids, all);
  }

  lemma AdminsRestoredIff(r: Roster, e: AdminInfo, info: AdminInfo)
    requires Replaceable(r, e, info)
    ensures Renamed(Renamed(r.admins, e.packageName, info), info.packageName, e) == r.admins <==>
            e.packageName == info.packageName || Childless(ListOf(r.admins, DEFAULT_USER_ID), info.packageName)
  {
    var there := Renamed(r.admins, e.packageName, info);
    var back := Renamed(there, info.packageName, e);
    forall v
      ensures v in back <==> v in r.admins
      ensures ListOf(back, v) == if v == DEFAULT_USER_ID then ThereAndBack(ListOf(r.admins, v), e, info)
                                 else ListOf(r.admins, v)
    {
      RenamedLists(r.admins, e.packageName, info, v);
      RenamedLists(there, info.packageName, e, v);
    }
    ListRestoredIff(ListOf(r.admins, DEFAULT_USER_ID), e, info);
    if ThereAndBack(ListOf(r.admins, DEFAULT_USER_ID), e, info) == ListOf(r.admins, DEFAULT_USER_ID) {
      forall v | v in r.admins ensures back[v] == r.admins[v] { assert ListOf(back, v) == ListOf(r.admins, v); }
    }
  }

  /** In step with the table, a child of the new name in the roster is a row that gets a new parent. */
  lemma ChildIsStolen(r: Roster, from: string, to: string)
    requires InSync(r) && !Childless(ListOf(r.admins, DEFAULT_USER_ID), to)
    ensures AnyStolen(r, from, to)
  {
    var list, infos := ListOf(r.admins, DEFAULT_USER_ID), RowsOf(r.rows, DEFAULT_USER_ID);
    var k :| 0 <= k < |list| && IsChildOf(list[k], to);
    assert ListInSync(list, infos);
    assert list[k] == LoadOne(infos[k]);
    ListedRow(r.rows, DEFAULT_USER_ID, k);
    var i :| 0 <= i < |r.rows| && r.rows[i] == Row(DEFAULT_USER_ID, infos[k]);
    assert HasChild(list, to, r.rows[i].info.packageName);
    assert Stolen(list, from, to, r.rows[i]);
  }

  /** When the policies cannot be renamed and all writes of the administrator table succeed, the rollback restores the
      roster exactly when no sub or virtual administrator had the new name as parent, and roster and table exactly when,
      besides, no row of a child of either name, under any user, had the new name as parent, and the permissions of the
      old administrator's row were not cut at loading; the parents do not matter when the two names are the same. */
  lemma RollbackRestoresIff(r: Roster, oldAdmin: Element, newAdmin: Element, env: ReplaceEnv, permission: seq<string>,
                            io: ReplaceIo, back: ReplaceIo)
    requires Safe(r.admins) && InSync(r) && MayReplace(r.admins, oldAdmin, newAdmin, env)
    requires var e := ReplacedAdmin(r.admins, oldAdmin);
             var info := NewSuperAdmin(e, newAdmin, permission);
             && Complete(r, oldAdmin.bundleName, info, io)
             && Complete(RenamedRoster(r, oldAdmin.bundleName, info), newAdmin.bundleName, e, back)
    ensures var e := ReplacedAdmin(r.admins, oldAdmin);
            var r' := KeepPolicyRoster(r, e, NewSuperAdmin(e, newAdmin, permission), false, io, back);
            var same := oldAdmin.bundleName == newAdmin.bundleName;
            && (r'.admins == r.admins <==> same || Childless(ListOf(r.admins, DEFAULT_USER_ID), newAdmin.bundleName))
            && (r' == r <==>
                && (same || !AnyStolen(r, oldAdmin.bundleName, newAdmin.bundleName))
                && ReadsWholeRow(r, oldAdmin.bundleName))
  {
    var e := ReplacedAdmin(r.admins, oldAdmin);
    var info := NewSuperAdmin(e, newAdmin, permission);
    OldIsOnly(r.admins, oldAdmin, newAdmin, env);
    NewNameIsFree(r.admins, oldAdmin, newAdmin, env);
    var there := RenamedRoster(r, e.packageName, info);
    CompleteRenames(r, e.packageName, info, io);
    CompleteRenames(there, info.packageName, e, back);
    assert KeepPolicyRoster(r, e, info, false, io, back) == RenamedRoster(there, info.packageName, e);
    AdminsRestoredIff(r, e, info);
    RowsRestoredIff(r, e, info);
    if !Childless(ListOf(r.admins, DEFAULT_USER_ID), info.packageName) {
      ChildIsStolen(r, e.packageName, info.packageName);
    }
  }

  // ----- What a restart loads after a replacement -----

  lemma {:induction false} RenamedRowsOf(rows: seq<Row>, children: seq<string>, from: string, info: AdminInfo, u: int)
    ensures var rows' := RenamedRows(rows, children, from, info);
            && |RowsOf(rows', u)| == |RowsOf(rows, u)|
            && forall k :: 0 <= k < |RowsOf(rows, u)| ==>
                 RowsOf(rows', u)[k] == RenamedRow(Row(u, RowsOf(rows, u)[k]), children, from, info).info
  {
    if rows != [] {
      var init, last := rows[..|rows| - 1], rows[|rows| - 1];
      RenamedRowsOf(init, children, from, info, u);
      assert RenamedRows(rows, children, from, info)[..|rows| - 1] == RenamedRows(init, children, from, info);
      assert last == Row(last.userId, last.info);
    }
  }

  /** The new administrator's entry is what its row loads as. */
  predicate OwnLoads(e: AdminInfo, info: AdminInfo) {
    && e.permission == ReadList(info.permission) && e.parentAdminName == info.parentAdminName
    && e.isDebug == info.isDebug && e.runningMode == info.runningMode
  }

  /** A row of another user that is moved to the new parent although no entry is. */
  ghost predicate MovedAlone(list: seq<AdminInfo>, from: string, row: Row) {
    && row.userId != DEFAULT_USER_ID && row.info.parentAdminName == from
    && HasChild(list, from, row.info.packageName)
  }

  ghost predicate AnyMovedAlone(r: Roster, from: string) {
    exists i :: 0 <= i < |r.rows| && MovedAlone(ListOf(r.admins, DEFAULT_USER_ID), from, r.rows[i])
  }

  /** One entry and its row after the replacement. */
  lemma EntryLoadsIff(r: Roster, e: AdminInfo, info: AdminInfo, u: int, k: nat)
    requires Replaceable(r, e, info) && k < |RowsOf(r.rows, u)|
    ensures k < |ListOf(Renamed(r.admins, e.packageName, info), u)|
    ensures var row := RowsOf(r.rows, u)[k];
            ListOf(Renamed(r.admins, e.packageName, info), u)[k] ==
            LoadOne(RenamedRow(Row(u, row), FoundChildren(r.admins, e.packageName), e.packageName, info).info) <==>
            && (RowMatch(Row(u, row), DEFAULT_USER_ID, e.packageName) ==> OwnLoads(e, info))
            && (MovedAlone(ListOf(r.admins, DEFAULT_USER_ID), e.packageName, Row(u, row)) ==>
                  e.packageName == info.packageName)
  {
    var list, row := ListOf(r.admins, DEFAULT_USER_ID), RowsOf(r.rows, u)[k];
    var kids := FoundChildren(r.admins, e.packageName);
    assert ListInSync(ListOf(r.admins, u), RowsOf(r.rows, u));
    var entry := ListOf(r.admins, u)[k];
    assert entry == LoadOne(row) && entry.packageName == row.packageName && entry.adminType == row.adminType
           && entry.parentAdminName == row.parentAdminName;
    FoundBoth(r, e, info, row.packageName);
    RenamedLists(r.admins, e.packageName, info, u);
    if u == DEFAULT_USER_ID {
      KnownNames(r, e, info, e.packageName);
      OwnEntryLoadsIff(list, e, info, row, k, kids);
    }
  }

  lemma OwnEntryLoadsIff(list: seq<AdminInfo>, e: AdminInfo, info: AdminInfo, row: AdminInfo, k: nat, kids: seq<string>)
    requires k < |list| && list[k] == LoadOne(row) && OnlyOld(list, e) && UniqueNames(list)
    requires e.adminType == ENT && info.adminType == ENT && info.entName == e.entName && info.entDesc == e.entDesc
    requires row.packageName in kids <==> HasChild(list, e.packageName, row.packageName)
    requires !HasChild(list, e.packageName, e.packageName)
    ensures RenamedList(list, e.packageName, info)[k] ==
            LoadOne(RenamedRow(Row(DEFAULT_USER_ID, row), kids, e.packageName, info).info) <==>
            (row.packageName == e.packageName ==> OwnLoads(e, info))
  {
    RenamedListAt(list, e.packageName, info, k);
    assert list[k].packageName == row.packageName;
    if row.packageName in kids {
      var i :| 0 <= i < |list| && IsChildOf(list[i], e.packageName) && list[i].packageName == row.packageName;
      assert i == k;
    } else {
      assert !IsChildOf(list[k], e.packageName);
    }
  }

  lemma RowsLoadIff(r: Roster, e: AdminInfo, info: AdminInfo, u: int)
    requires Replaceable(r, e, info)
    ensures var r' := RenamedRoster(r, e.packageName, info);
            ListInSync(ListOf(r'.admins, u), RowsOf(r'.rows, u)) <==>
            forall k :: 0 <= k < |RowsOf(r.rows, u)| ==>
              EntryFits(ListOf(r.admins, DEFAULT_USER_ID), e, info, Row(u, RowsOf(r.rows, u)[k]))
  {
    var r' := RenamedRoster(r, e.packageName, info);
    RenamedRowsOf(r.rows, FoundChildren(r.admins, e.packageName), e.packageName, info, u);
    RenamedLists(r.admins, e.packageName, info, u);
    assert ListInSync(ListOf(r.admins, u), RowsOf(r.rows, u));
    forall k | 0 <= k < |RowsOf(r.rows, u)|
      ensures ListOf(r'.admins, u)[k] == LoadOne(RowsOf(r'.rows, u)[k]) <==>
              EntryFits(ListOf(r.admins, DEFAULT_USER_ID), e, info, Row(u, RowsOf(r.rows, u)[k]))
    {
      EntryLoadsIff(r, e, info, u, k);
    }
  }

  ghost predicate EntryFits(list: seq<AdminInfo>, e: AdminInfo, info: AdminInfo, row: Row) {
    && (RowMatch(row, DEFAULT_USER_ID, e.packageName) ==> OwnLoads(e, info))
    && (MovedAlone(list, e.packageName, row) ==> e.packageName == info.packageName)
  }

  lemma RenamedKnown(rows: seq<Row>, children: seq<string>, from: string, info: AdminInfo)
    requires KnownTypes(rows) && info.adminType == ENT
    ensures KnownTypes(RenamedRows(rows, children, from, info))
  {
  }

  lemma SyncedIff(r: Roster, e: AdminInfo, info: AdminInfo)
    requires Replaceable(r, e, info) && e in ListOf(r.admins, DEFAULT_USER_ID)
    ensures InSync(RenamedRoster(r, e.packageName, info)) <==>
            OwnLoads(e, info) && (e.packageName == info.packageName || !AnyMovedAlone(r, e.packageName))
  {
    var list, r' := ListOf(r.admins, DEFAULT_USER_ID), RenamedRoster(r, e.packageName, info);
    RenamedKnown(r.rows, FoundChildren(r.admins, e.packageName), e.packageName, info);
    forall u
      ensures (u in r'.admins <==> RowsOf(r'.rows, u) != [])
      ensures ListInSync(ListOf(r'.admins, u), RowsOf(r'.rows, u)) <==>
              forall k :: 0 <= k < |RowsOf(r.rows, u)| ==> EntryFits(list, e, info, Row(u, RowsOf(r.rows, u)[k]))
    {
      RenamedRowsOf(r.rows, FoundChildren(r.admins, e.packageName), e.packageName, info, u);
      RenamedLists(r.admins, e.packageName, info, u);
      RowsLoadIff(r, e, info, u);
    }
    if InSync(r') {
      forall u, k | 0 <= k < |RowsOf(r.rows, u)| ensures EntryFits(list, e, info, Row(u, RowsOf(r.rows, u)[k])) {
        assert ListInSync(ListOf(r'.admins, u), RowsOf(r'.rows, u));
      }
      AllFit(r, e, info);
    } else {
      FitsAll(r, e, info);
    }
  }

  lemma AllFit(r: Roster, e: AdminInfo, info: AdminInfo)
    requires Replaceable(r, e, info) && e in ListOf(r.admins, DEFAULT_USER_ID)
    requires forall u, k :: 0 <= k < |RowsOf(r.rows, u)| ==>
               EntryFits(ListOf(r.admins, DEFAULT_USER_ID), e, info, Row(u, RowsOf(r.rows, u)[k]))
    ensures OwnLoads(e, info) && (e.packageName == info.packageName || !AnyMovedAlone(r, e.packageName))
  {
    var list := ListOf(r.admins, DEFAULT_USER_ID);
    var j :| 0 <= j < |list| && list[j] == e;
    assert ListInSync(list, RowsOf(r.rows, DEFAULT_USER_ID));
    assert list[j] == LoadOne(RowsOf(r.rows, DEFAULT_USER_ID)[j]);
    assert EntryFits(list, e, info, Row(DEFAULT_USER_ID, RowsOf(r.rows, DEFAULT_USER_ID)[j]));
    if AnyMovedAlone(r, e.packageName) {
      var i :| 0 <= i < |r.rows| && MovedAlone(list, e.packageName, r.rows[i]);
      var u := r.rows[i].userId;
      RowListed(r.rows, u, i);
      var k :| 0 <= k < |RowsOf(r.rows, u)| && RowsOf(r.rows, u)[k] == r.rows[i].info;
      assert Row(u, RowsOf(r.rows, u)[k]) == r.rows[i];
      assert EntryFits(list, e, info, Row(u, RowsOf(r.rows, u)[k]));
    }
  }

  lemma FitsAll(r: Roster, e: AdminInfo, info: AdminInfo)
    requires Replaceable(r, e, info)
    ensures OwnLoads(e, info) && (e.packageName == info.packageName || !AnyMovedAlone(r, e.packageName)) ==>
              forall u, k :: 0 <= k < |RowsOf(r.rows, u)| ==>
                EntryFits(ListOf(r.admins, DEFAULT_USER_ID), e, info, Row(u, RowsOf(r.rows, u)[k]))
  {
    if OwnLoads(e, info) && (e.packageName == info.packageName || !AnyMovedAlone(r, e.packageName)) {
      forall u, k | 0 <= k < |RowsOf(r.rows, u)|
        ensures EntryFits(ListOf(r.admins, DEFAULT_USER_ID), e, info, Row(u, RowsOf(r.rows, u)[k]))
      {
        ListedRow(r.rows, u, k);
        var i :| 0 <= i < |r.rows| && r.rows[i] == Row(u, RowsOf(r.rows, u)[k]);
        assert e.packageName != info.packageName ==>
               !MovedAlone(ListOf(r.admins, DEFAULT_USER_ID), e.packageName, r.rows[i]);
      }
    }
  }

  lemma OldIsSuper(admins: Admins, oldAdmin: Element, newAdmin: Element, env: ReplaceEnv)
    requires Safe(admins) && MayReplace(admins, oldAdmin, newAdmin, env)
    ensures var e := ReplacedAdmin(admins, oldAdmin);
            e in ListOf(admins, DEFAULT_USER_ID) && !e.isDebug && e.runningMode == DEFAULT
  {
    var list, e := ListOf(admins, DEFAULT_USER_ID), ReplacedAdmin(admins, oldAdmin);
    assert ListSafe(list, DEFAULT_USER_ID);
    LookupIs(admins, oldAdmin.bundleName, DEFAULT_USER_ID);
    OldSuperWasOnly(admins, oldAdmin, newAdmin, env);
    var s :| s in list && IsOfficialSuper(s) && s.packageName == oldAdmin.bundleName;
    FoundIs(list, e, s);
    SuperStands(list, ENT);
    FoundIs(list, GetSuperAdmin(admins).value, s);
  }

  /** A completed replacement that keeps the policies leaves the roster a restart would load if and only if the new
      administrator has the permissions of the old one, which had no parent, and no other user has a row of one of its
      children under the old name: the roster keeps the old permissions and parent, and other users' entries. */
  lemma ReplacementSyncIff(r: Roster, oldAdmin: Element, newAdmin: Element, env: ReplaceEnv, permission: seq<string>,
                           io: ReplaceIo, back: ReplaceIo)
    requires Safe(r.admins) && InSync(r) && MayReplace(r.admins, oldAdmin, newAdmin, env)
    requires Complete(r, oldAdmin.bundleName,
                      NewSuperAdmin(ReplacedAdmin(r.admins, oldAdmin), newAdmin, permission), io)
    ensures var e := ReplacedAdmin(r.admins, oldAdmin);
            InSync(KeepPolicyRoster(r, e, NewSuperAdmin(e, newAdmin, permission), true, io, back)) <==>
            && e.permission == ReadList(permission) && e.parentAdminName == ""
            && (oldAdmin.bundleName == newAdmin.bundleName || !AnyMovedAlone(r, oldAdmin.bundleName))
  {
    var e := ReplacedAdmin(r.admins, oldAdmin);
    var info := NewSuperAdmin(e, newAdmin, permission);
    OldIsOnly(r.admins, oldAdmin, newAdmin, env);
    OldIsSuper(r.admins, oldAdmin, newAdmin, env);
    NewNameIsFree(r.admins, oldAdmin, newAdmin, env);
    CompleteRenames(r, e.packageName, info, io);
    SyncedIff(r, e, info);
  }

  /** On a fresh device the first administrator is replaced: with other permissions for the new one a restart loads
      these, while the roster has the old ones. */
  lemma ReplacementKeepsPermissions(admin: Element, newAdmin: Element, permission: seq<string>, now: seq<string>,
                                    back: ReplaceIo)
    requires |permission| <= DEFAULT_LOOP_MAX_SIZE && |now| <= DEFAULT_LOOP_MAX_SIZE
    requires newAdmin.bundleName != admin.bundleName
    ensures var r, env := FirstEnabled(admin, false, permission).life.roster, ReplaceEnv(false, true, true, Some(now));
            && InSync(r) && MayReplace(r.admins, admin, newAdmin, env)
            && var e := ReplacedAdmin(r.admins, admin);
               InSync(KeepPolicyRoster(r, e, NewSuperAdmin(e, newAdmin, now), true, ReplaceIo(true, 1, true),
                                       back)) <==>
               permission == now
  {
    var r, env := FirstEnabled(admin, false, permission).life.roster, ReplaceEnv(false, true, true, Some(now));
    var e := EnabledInfo(admin, "", "", ENT, DEPLOY, false, permission);
    FirstEnabledIs(admin, false, permission);
    FirstInSync(e);
    MayReplaceOnly(admin, newAdmin, e, now);
    OneIsFound(e, admin.bundleName);
    var list := ListOf(r.admins, DEFAULT_USER_ID);
    ChildrenAreFew(Copies(list), admin.bundleName);
    CopiesAreFew(list);
    ReplacementSyncIff(r, admin, newAdmin, env, now, ReplaceIo(true, 1, true), back);
    assert !AnyMovedAlone(r, admin.bundleName);
  }

  lemma MayReplaceOnly(admin: Element, newAdmin: Element, e: AdminInfo, now: seq<string>)
    requires e.packageName == admin.bundleName && e.className == admin.abilityName && e.adminType == ENT && !e.isDebug
    requires e.runningMode == DEFAULT && newAdmin.bundleName != admin.bundleName
    ensures MayReplace(map[DEFAULT_USER_ID := [e]], admin, newAdmin, ReplaceEnv(false, true, true, Some(now)))
  {
    var admins := map[DEFAULT_USER_ID := [e]];
    OneIsFound(e, admin.bundleName);
    OneIsFound(e, newAdmin.bundleName);
    assert [e][..0] == [] && Copies([]) == [] && Copies([e]) == [e];
    assert GetSuperAdmin(admins) == Some(e);
    NoDebugYet(e);
  }

  // ----- A rollback that takes a child -----

  /** The first administrator of a device, with an application that was delegated policies without a parent. */
  function WithDelegate(admin: Element, bundleName: string, caller: string): LifeResult {
    DelegateDirectSpec(FirstEnabled(admin, false, []).life, bundleName, [], DEFAULT_USER_ID, true, true, true,
                       Some(caller), Some([]), Done)
  }

  lemma WithDelegateIs(admin: Element, bundleName: string, caller: string)
    requires bundleName != admin.bundleName
    ensures var w := WithDelegate(admin, bundleName, caller);
            var e, d := EnabledInfo(admin, "", "", ENT, DEPLOY, false, []),
                        DelegatedInfo(bundleName, [], caller, [], false);
            && w.err == LifeOk && Safe(w.life.roster.admins)
            && w.life.roster ==
               SetAdminValueSpec(FirstEnabled(admin, false, []).life.roster, DEFAULT_USER_ID, d, Done).roster
            && w.life.roster.admins == map[DEFAULT_USER_ID := [e, d]]
  {
    var e, d := EnabledInfo(admin, "", "", ENT, DEPLOY, false, []), DelegatedInfo(bundleName, [], caller, [], false);
    FirstEnabledIs(admin, false, []);
    OneIsFound(e, bundleName);
    assert [e] + [d] == [e, d];
    NoDebugYet(e);
    SavedDirectlyIff(FirstEnabled(admin, false, []).life.roster, DEFAULT_USER_ID, d);
  }

  lemma NoDebugYet(e: AdminInfo)
    requires !e.isDebug
    ensures !AnyDebug(map[DEFAULT_USER_ID := [e]], true)
  {
  }

  lemma WithDelegateInSync(admin: Element, bundleName: string, caller: string)
    requires bundleName != admin.bundleName
    ensures InSync(WithDelegate(admin, bundleName, caller).life.roster)
  {
    var first := FirstEnabled(admin, false, []).life.roster;
    var e, d := EnabledInfo(admin, "", "", ENT, DEPLOY, false, []), DelegatedInfo(bundleName, [], caller, [], false);
    FirstEnabledIs(admin, false, []);
    WithDelegateIs(admin, bundleName, caller);
    FirstInSync(e);
    SetValueSyncIff(first, DEFAULT_USER_ID, d);
    OneIsFound(e, bundleName);
  }

  lemma {:induction false} ChildrenAreFew(list: seq<AdminInfo>, parentName: string)
    ensures |ChildrenOf(list, parentName)| <= |list|
  {
    if list != [] { ChildrenAreFew(list[..|list| - 1], parentName); }
  }

  lemma MayReplaceFirst(admin: Element, newAdmin: Element, e: AdminInfo, d: AdminInfo)
    requires e == EnabledInfo(admin, "", "", ENT, DEPLOY, false, [])
    requires d.adminType == VIRTUAL_ADMIN && !d.isDebug && d.packageName != admin.bundleName
    requires newAdmin.bundleName != admin.bundleName && newAdmin.bundleName != d.packageName
    ensures MayReplace(map[DEFAULT_USER_ID := [e, d]], admin, newAdmin, ReplaceEnv(false, true, true, Some([])))
  {
    var admins := map[DEFAULT_USER_ID := [e, d]];
    var list := [e, d];
    assert list[..1] == [e] && [e][..0] == [];
    assert Copies([]) == [] && Copies([e]) == [e] && Copies(list) == [e] + [d] == list;
    assert list[1..] == [d] && [d][1..] == [];
    assert FindNamed([], newAdmin.bundleName) == None && FindNamed([d], newAdmin.bundleName) == None;
    assert FindNamed(list, newAdmin.bundleName) == None && FindNamed(list, admin.bundleName) == Some(e);
    assert GetSuperAdmin(admins) == Some(e);
    assert !AnyDebug(admins, true);
  }

  /** On a fresh device a super administrator is enabled, an application to be its successor delegates to another one,
      and the replacement by that successor fails to rename the policies: after a complete rollback the other
      application is the old administrator's child, in the roster and in the table. */
  lemma RollbackTakesChild(admin: Element, newAdmin: Element, bundleName: string)
    requires bundleName != admin.bundleName && newAdmin.bundleName != admin.bundleName &&
             newAdmin.bundleName != bundleName
    ensures var r, env := WithDelegate(admin, bundleName, newAdmin.bundleName).life.roster,
                          ReplaceEnv(false, true, true, Some([]));
            var all := ReplaceIo(true, 2, true);
            && WithDelegate(admin, bundleName, newAdmin.bundleName).err == LifeOk
            && MayReplace(r.admins, admin, newAdmin, env)
            && var e := ReplacedAdmin(r.admins, admin);
               var r' := KeepPolicyRoster(r, e, NewSuperAdmin(e, newAdmin, []), false, all, all);
               && r'.admins != r.admins && r'.rows != r.rows
               && HasChild(ListOf(r.admins, DEFAULT_USER_ID), newAdmin.bundleName, bundleName)
               && HasChild(ListOf(r'.admins, DEFAULT_USER_ID), admin.bundleName, bundleName)
  {
    var r, env := WithDelegate(admin, bundleName, newAdmin.bundleName).life.roster,
                  ReplaceEnv(false, true, true, Some([]));
    var first := EnabledInfo(admin, "", "", ENT, DEPLOY, false, []);
    var d := DelegatedInfo(bundleName, [], newAdmin.bundleName, [], false);
    WithDelegateIs(admin, bundleName, newAdmin.bundleName);
    WithDelegateInSync(admin, bundleName, newAdmin.bundleName);
    MayReplaceFirst(admin, newAdmin, first, d);
    TakenBack(r, admin, newAdmin, env, first, d);
  }

  lemma TakenBack(r: Roster, admin: Element, newAdmin: Element, env: ReplaceEnv, first: AdminInfo, d: AdminInfo)
    requires Safe(r.admins) && InSync(r) && r.admins == map[DEFAULT_USER_ID := [first, d]]
    requires MayReplace(r.admins, admin, newAdmin, env) && newAdmin.bundleName != admin.bundleName
    requires IsChildOf(d, newAdmin.bundleName) && d.packageName != admin.bundleName
    ensures var e, all := ReplacedAdmin(r.admins, admin), ReplaceIo(true, 2, true);
            var r' := KeepPolicyRoster(r, e, NewSuperAdmin(e, newAdmin, []), false, all, all);
            && r'.admins != r.admins && r'.rows != r.rows
            && HasChild(ListOf(r.admins, DEFAULT_USER_ID), newAdmin.bundleName, d.packageName)
            && HasChild(ListOf(r'.admins, DEFAULT_USER_ID), admin.bundleName, d.packageName)
  {
    var e, all := ReplacedAdmin(r.admins, admin), ReplaceIo(true, 2, true);
    var info := NewSuperAdmin(e, newAdmin, []);
    OldIsOnly(r.admins, admin, newAdmin, env);
    NewNameIsFree(r.admins, admin, newAdmin, env);
    var list := ListOf(r.admins, DEFAULT_USER_ID);
    assert list[1] == d;
    FewChildren(r.admins, admin.bundleName);
    var there := RenamedRoster(r, admin.bundleName, info);
    RenamedLists(r.admins, admin.bundleName, info, DEFAULT_USER_ID);
    FewChildren(there.admins, newAdmin.bundleName);
    RollbackRestoresIff(r, admin, newAdmin, env, [], all, all);
    CompleteRenames(r, e.packageName, info, all);
    CompleteRenames(there, info.packageName, e, all);
    RenamedLists(there.admins, newAdmin.bundleName, e, DEFAULT_USER_ID);
    TakenChild(list, e, info, 1);
    ChildIsStolen(r, e.packageName, info.packageName);
    RowsRestoredIff(r, e, info);
  }

  lemma FewChildren(admins: Admins, parentName: string)
    requires |ListOf(admins, DEFAULT_USER_ID)| == 2
    ensures |FoundChildren(admins, parentName)| <= 2
  {
    var list := ListOf(admins, DEFAULT_USER_ID);
    ChildrenAreFew(Copies(list), parentName);
    CopiesAreFew(list);
  }

  lemma {:induction false} CopiesAreFew(list: seq<AdminInfo>)
    ensures |Copies(list)| <= |list|
  {
    if list != [] { CopiesAreFew(list[..|list| - 1]); }
  }

  lemma TakenChild(list: seq<AdminInfo>, e: AdminInfo, info: AdminInfo, k: nat)
    requires e.packageName != info.packageName && k < |list|
    requires IsChildOf(list[k], info.packageName) && list[k].packageName != e.packageName &&
             !Named(list, info.packageName)
    ensures HasChild(list, info.packageName, list[k].packageName)
    ensures HasChild(ThereAndBack(list, e, info), e.packageName, list[k].packageName)
  {
    var there, back := RenamedList(list, e.packageName, info), ThereAndBack(list, e, info);
    RenamedListAt(list, e.packageName, info, k);
    RenamedListAt(there, info.packageName, e, k);
    assert IsChildOf(back[k], e.packageName);
  }
}
