/** The administrator container, the administrator table and the administrator manager, updated in place; every
    method is proved against its function in AdminModel.dfy. */
module AdminStore {
  import opened PolicyModel
  import opened ManagerModel
  import opened AdminModel

  class AdminContainer {
    var admins: Admins

    constructor ()
      ensures admins == map[]
    {
      admins := map[];
    }

    method SetAdminByUserId(userId: int, item: AdminInfo)
      modifies this
      ensures admins == SetByUser(old(admins), userId, item)
    {
      var userAdmin := if userId in admins then admins[userId] else [];
      match CreateAdmin(item)
      case Some(admin) => admins := admins[userId := userAdmin + [admin]];
      case None =>
    }

    method DeleteAdmin(packageName: string, userId: int) returns (found: bool)
      modifies this
      ensures found == (userId in old(admins)) && admins == DeleteByUser(old(admins), userId, packageName)
    {
      if userId !in admins { return false; }
      var rest := RemoveIf(admins[userId], packageName);
      admins := admins[userId := rest];
      if rest == [] { admins := admins - {userId}; }
      return true;
    }

    static method RemoveIf(list: seq<AdminInfo>, packageName: string) returns (rest: seq<AdminInfo>)
      ensures rest == Without(list, packageName)
    {
      rest := [];
      var i := 0;
      while i < |list|
        invariant 0 <= i <= |list| && rest == Without(list[..i], packageName)
      {
        assert list[..i + 1][..i] == list[..i];
        if list[i].packageName != packageName { rest := rest + [list[i]]; }
        i := i + 1;
      }
      assert list[..i] == list;
    }

    method GetAdminCopyByUserId(userId: int) returns (found: bool, copies: seq<AdminInfo>)
      ensures found == (userId in admins) && copies == Copies(ListOf(admins, userId))
    {
      if userId !in admins { return false, []; }
      copies := CopyAll(admins[userId]);
      return true, copies;
    }

    static method CopyAll(list: seq<AdminInfo>) returns (copies: seq<AdminInfo>)
      ensures copies == Copies(list)
    {
      copies := [];
      var i := 0;
      while i < |list|
        invariant 0 <= i <= |list| && copies == Copies(list[..i])
      {
        assert list[..i + 1][..i] == list[..i];
        match CreateAdmin(list[i]) {
          case Some(copy) => copies := copies + [copy];
          case None =>
        }
        i := i + 1;
      }
      assert list[..i] == list;
    }

    /** The loop over one user's administrators, field by field. */
    method UpdateAdmin(userId: int, packageName: string, change: Change)
      modifies this
      ensures admins == ChangeByUser(old(admins), userId, packageName, change)
    {
      if userId !in admins { return; }
      var list := admins[userId];
      var i := 0;
      while i < |list|
        invariant 0 <= i <= |list| == |old(admins)[userId]|
        invariant forall k :: 0 <= k < |list| ==>
                    list[k] == if k < i then Changed(old(admins)[userId], packageName, change)[k]
                               else old(admins)[userId][k]
      {
        if list[i].packageName == packageName { list := list[i := Apply(change, list[i])]; }
        i := i + 1;
      }
      assert list == Changed(old(admins)[userId], packageName, change);
      admins := admins[userId := list];
    }

    method UpdateParentAdminName(userId: int, parentAdminName: string, updateName: string)
      modifies this
      ensures admins == RenameParentsByUser(old(admins), userId, parentAdminName, updateName)
    {
      if userId !in admins { return; }
      var list := admins[userId];
      var i := 0;
      while i < |list|
        invariant 0 <= i <= |list| == |old(admins)[userId]|
        invariant forall k :: 0 <= k < |list| ==>
                    list[k] == if k < i then RenameParents(old(admins)[userId], parentAdminName, updateName)[k]
                               else old(admins)[userId][k]
      {
        if IsChildOf(list[i], parentAdminName) { list := list[i := list[i].(parentAdminName := updateName)]; }
        i := i + 1;
      }
      assert list == RenameParents(old(admins)[userId], parentAdminName, updateName);
      admins := admins[userId := list];
    }

    method InitAdmins(infos: Admins)
      modifies this
      ensures admins == InitAdminsSpec(old(admins), infos)
    {
      ghost var before := admins;
      var todo := infos.Keys;
      while todo != {}
        invariant todo <= infos.Keys && admins == InitPart(before, infos, todo)
        decreases |todo|
      {
        SomeUser(todo);
        var u :| u in todo;
        InitNext(before, infos, todo, u);
        var list := CopyAll(infos[u]);
        admins := admins[u := list];
        todo := todo - {u};
      }
      InitLast(before, infos);
    }

    /** Some administrator of any user is a debug one, or an official one. */
    method IsExistTargetAdmin(isDebug: bool) returns (exist: bool)
      ensures exist <==> AnyDebug(admins, isDebug)
    {
      exist := exists u | u in admins.Keys :: exists i | 0 <= i < |admins[u]| :: admins[u][i].isDebug == isDebug;
    }

    method GetSuperDeviceAdminAndDeviceAdminCount() returns (count: nat)
      ensures count == CountDeviceAdmins(ListOf(admins, DEFAULT_USER_ID))
    {
      count := 0;
      if DEFAULT_USER_ID !in admins { return; }
      var list := admins[DEFAULT_USER_ID];
      var i := 0;
      while i < |list|
        invariant 0 <= i <= |list| && count == CountDeviceAdmins(list[..i])
      {
        assert list[..i + 1][..i] == list[..i];
        if list[i].adminType == ENT || list[i].adminType == NORMAL { count := count + 1; }
        i := i + 1;
      }
      assert list[..i] == list;
    }
  }

  /** The users of `todo` are still to come. */
  ghost function InitPart(admins: Admins, infos: Admins, todo: set<int>): Admins {
    admins + map u | u in infos && u !in todo :: Copies(infos[u])
  }

  lemma InitNext(admins: Admins, infos: Admins, todo: set<int>, u: int)
    requires u in todo && todo <= infos.Keys
    ensures InitPart(admins, infos, todo)[u := Copies(infos[u])] == InitPart(admins, infos, todo - {u})
  {
  }

  lemma InitLast(admins: Admins, infos: Admins)
    ensures InitPart(admins, infos, {}) == InitAdminsSpec(admins, infos)
  {
  }

  class AdminPoliciesStorageRdb {
    var rows: seq<Row>

    constructor (rows: seq<Row>)
      ensures this.rows == rows
    {
      this.rows := rows;
    }

    method InsertAdmin(userId: int, admin: AdminInfo, ok: bool) returns (done: bool)
      modifies this
      ensures done == ok && rows == if ok then InsertRow(old(rows), userId, InsertBucket(admin)) else old(rows)
    {
      if ok { rows := rows + [Row(userId, InsertBucket(admin))]; }
      return ok;
    }

    /** `UpdateAdmin`, `UpdateEntInfo`, `UpdateManagedEvents` and `ReplaceAdmin`, by what they write. */
    method Update(userId: int, packageName: string, change: Change, ok: bool) returns (done: bool)
      modifies this
      ensures done == ok && rows == if ok then ChangeRows(old(rows), userId, packageName, change) else old(rows)
    {
      if ok { rows := ChangeRows(rows, userId, packageName, change); }
      return ok;
    }

    method UpdateParentName(packageName: string, currentParentName: string, targetParentName: string, ok: bool)
      returns (done: bool)
      modifies this
      ensures done == ok
      ensures rows == if ok then RenameParentRows(old(rows), packageName, currentParentName, targetParentName)
                      else old(rows)
    {
      if ok { rows := RenameParentRows(rows, packageName, currentParentName, targetParentName); }
      return ok;
    }

    method DeleteAdmin(userId: int, packageName: string, ok: bool) returns (done: bool)
      modifies this
      ensures done == ok && rows == if ok then DeleteRows(old(rows), userId, packageName) else old(rows)
    {
      if ok { rows := DeleteRows(rows, userId, packageName); }
      return ok;
    }

    /** The cursor loop over all rows. */
    method QueryAllAdmin(ok: bool) returns (admins: Admins)
      ensures admins == if ok then QueryRows(rows) else map[]
    {
      admins := map[];
      if !ok { return; }
      var i := 0;
      while i < |rows|
        invariant 0 <= i <= |rows| && admins == QueryRows(rows[..i])
      {
        assert rows[..i + 1][..i] == rows[..i];
        var userId, item := rows[i].userId, ReadRow(rows[i].info);
        if userId in admins {
          admins := admins[userId := admins[userId] + [item]];
        } else {
          assert ListOf(admins, userId) + [item] == [item];
          admins := admins[userId := [item]];
        }
        i := i + 1;
      }
      assert rows[..i] == rows;
    }
  }

  class AdminManager {
    const container: AdminContainer
    const storage: AdminPoliciesStorageRdb

    ghost function State(): Roster
      reads container, storage
    {
      Roster(container.admins, storage.rows)
    }

    constructor (container: AdminContainer, storage: AdminPoliciesStorageRdb)
      ensures this.container == container && this.storage == storage
    {
      this.container, this.storage := container, storage;
    }

    method GetAdminByPkgName(packageName: string, userId: int) returns (admin: Option<AdminInfo>)
      ensures admin == AdminByPkgName(container.admins, packageName, userId)
    {
      if userId != DEFAULT_USER_ID {
        var _, defaults := container.GetAdminCopyByUserId(DEFAULT_USER_ID);
        admin := FindAcross(defaults, packageName);
        if admin.Some? { return; }
      }
      var _, list := container.GetAdminCopyByUserId(userId);
      return FindNamed(list, packageName);
    }

    method SetAdminValue(userId: int, item: AdminInfo, io: Outcome) returns (err: AdminErr)
      modifies container, storage
      ensures RosterResult(State(), err) == SetAdminValueSpec(old(State()), userId, item, io)
    {
      var existing := GetAdminByPkgName(item.packageName, userId);
      if existing.Some? {
        err := UpdateAdmin(userId, item, CopyValue(item), io);
        return;
      }
      if io == Unavailable { return StorageUnavailable; }
      var done := storage.InsertAdmin(userId, item, io == Done);
      if !done { return SystemAbnormally; }
      container.SetAdminByUserId(userId, item);
      return AdminOk;
    }

    method UpdateAdmin(userId: int, item: AdminInfo, change: Change, io: Outcome) returns (err: AdminErr)
      modifies container, storage
      ensures RosterResult(State(), err) == UpdateAdminSpec(old(State()), userId, item, change, io)
    {
      if io == Unavailable { return StorageUnavailable; }
      var done := storage.Update(userId, item.packageName, UpdateBucket(item), io == Done);
      if !done { return SystemAbnormally; }
      container.UpdateAdmin(userId, item.packageName, change);
      return AdminOk;
    }

    method UpdateAdminPermission(packageName: string, userId: int, permission: seq<string>, io: Outcome)
      returns (err: AdminErr)
      modifies container, storage
      ensures RosterResult(State(), err) == UpdatePermissionSpec(old(State()), userId, packageName, permission, io)
    {
      err := UpdateAdmin(userId, NO_INFO.(packageName := packageName, permission := permission),
                         CopyPermission(permission), io);
    }

    method DeleteAdmin(packageName: string, userId: int, io: Outcome) returns (err: AdminErr)
      modifies container, storage
      ensures RosterResult(State(), err) == DeleteAdminSpec(old(State()), userId, packageName, io)
    {
      if userId !in container.admins { return UnknownAdmin; }
      if io == Unavailable { return StorageUnavailable; }
      var done := storage.DeleteAdmin(userId, packageName, io == Done);
      if !done { return DelAdminError; }
      var _ := container.DeleteAdmin(packageName, userId);
      return AdminOk;
    }

    method SetEntInfo(packageName: string, entName: string, entDesc: string, userId: int, io: Outcome)
      returns (err: AdminErr)
      modifies container, storage
      ensures RosterResult(State(), err) == SetEntInfoSpec(old(State()), userId, packageName, entName, entDesc, io)
    {
      if io == Unavailable { return StorageUnavailable; }
      var done := storage.Update(userId, packageName, CopyEntInfo(entName, entDesc), io == Done);
      if !done { return UnknownAdmin; }
      container.UpdateAdmin(userId, packageName, CopyEntInfo(entName, entDesc));
      return AdminOk;
    }

    method SaveSubscribeEvents(events: seq<int>, packageName: string, userId: int, io: Outcome) returns (err: AdminErr)
      modifies container, storage
      ensures RosterResult(State(), err) == SaveSubscribeEventsSpec(old(State()), userId, packageName, events, io)
    {
      var found := GetAdminByPkgName(packageName, userId);
      if found.None? { return UnknownAdmin; }
      if io == Unavailable { return StorageUnavailable; }
      var was := found.value.managedEvents;
      var now := was;
      var i := 0;
      while i < |events|
        invariant 0 <= i <= |events| && now == Subscribed(was, events[..i])
      {
        assert events[..i + 1][..i] == events[..i];
        if events[i] !in now { now := now + [events[i]]; }
        i := i + 1;
      }
      assert events[..i] == events;
      SubscribedGrows(was, events);
      err := SetEvents(userId, packageName, was, now, io);
    }

    method RemoveSubscribeEvents(events: seq<int>, packageName: string, userId: int, io: Outcome)
      returns (err: AdminErr)
      modifies container, storage
      ensures RosterResult(State(), err) == RemoveSubscribeEventsSpec(old(State()), userId, packageName, events, io)
    {
      var found := GetAdminByPkgName(packageName, userId);
      if found.None? { return UnknownAdmin; }
      if io == Unavailable { return StorageUnavailable; }
      var was := found.value.managedEvents;
      var now := [];
      var i := 0;
      while i < |was|
        invariant 0 <= i <= |was| && now == Unsubscribed(was[..i], events)
      {
        assert was[..i + 1][..i] == was[..i];
        if was[i] !in events { now := now + [was[i]]; }
        i := i + 1;
      }
      assert was[..i] == was;
      UnsubscribedShrinks(was, events);
      err := SetEvents(userId, packageName, was, now, io);
    }

    /** The end of both: the row when the number of events changed, then the roster. */
    method SetEvents(userId: int, packageName: string, was: seq<int>, now: seq<int>, io: Outcome)
      returns (err: AdminErr)
      modifies container, storage
      ensures RosterResult(State(), err) == SetEventsSpec(old(State()), userId, packageName, was, now, io)
    {
      if |now| != |was| {
        var done := storage.Update(userId, packageName, CopyEvents(now), io == Done);
        if !done { return UnknownAdmin; }
      }
      container.UpdateAdmin(userId, packageName, CopyEvents(now));
      return AdminOk;
    }

    method GetSubSuperAdminsByParentName(parentName: string) returns (children: seq<string>)
      ensures children == ChildrenOf(Copies(ListOf(container.admins, DEFAULT_USER_ID)), parentName)
    {
      var _, list := container.GetAdminCopyByUserId(DEFAULT_USER_ID);
      children := [];
      var i := 0;
      while i < |list|
        invariant 0 <= i <= |list| && children == ChildrenOf(list[..i], parentName)
      {
        assert list[..i + 1][..i] == list[..i];
        if IsChildOf(list[i], parentName) { children := children + [list[i].packageName]; }
        i := i + 1;
      }
      assert list[..i] == list;
    }

    method ReplaceSuperAdminByPackageName(packageName: string, newInfo: AdminInfo, available: bool, renamed: nat,
                                          replaceIo: bool)
      returns (err: AdminErr)
      modifies container, storage
      ensures RosterResult(State(), err) ==
              ReplaceSuperAdminSpec(old(State()), packageName, newInfo, available, renamed, replaceIo)
    {
      if !available { return StorageUnavailable; }
      var children := GetSubSuperAdminsByParentName(packageName);
      var allDone := RenameChildren(children, packageName, newInfo.packageName, renamed);
      if !allDone { return SetParentError; }
      var done := storage.Update(DEFAULT_USER_ID, packageName, ReplaceBucket(newInfo), replaceIo);
      if !done { return SystemAbnormally; }
      container.UpdateAdmin(DEFAULT_USER_ID, packageName, CopyIdentity(newInfo));
      container.UpdateParentAdminName(DEFAULT_USER_ID, packageName, newInfo.packageName);
      return AdminOk;
    }

    /** The loop over the children; the first failing write ends it. */
    method RenameChildren(children: seq<string>, parentName: string, newName: string, renamed: nat)
      returns (allDone: bool)
      modifies storage
      ensures allDone == (renamed >= |children|)
      ensures storage.rows ==
              RenameChildRows(old(storage.rows), if allDone then children else children[..renamed], parentName, newName)
    {
      var i := 0;
      while i < |children|
        invariant 0 <= i <= |children| && i <= renamed
        invariant storage.rows == RenameChildRows(old(storage.rows), children[..i], parentName, newName)
      {
        assert children[..i + 1][..i] == children[..i];
        var done := storage.UpdateParentName(children[i], parentName, newName, i < renamed);
        if !done { return false; }
        i := i + 1;
      }
      assert children[..i] == children;
      return true;
    }

    method Init(available: bool, ok: bool)
      modifies container
      ensures container.admins == if available
                                  then InitAdminsSpec(old(container.admins), if ok then QueryRows(storage.rows)
                                                                             else map[])
                                  else old(container.admins)
    {
      if available {
        var infos := storage.QueryAllAdmin(ok);
        container.InitAdmins(infos);
      }
    }
  }

  lemma {:induction false} SubscribedGrows(now: seq<int>, events: seq<int>)
    ensures |Subscribed(now, events)| >= |now|
    ensures |Subscribed(now, events)| == |now| ==> Subscribed(now, events) == now
  {
    if events != [] { SubscribedGrows(now, events[..|events| - 1]); }
  }

  lemma {:induction false} UnsubscribedShrinks(now: seq<int>, events: seq<int>)
    ensures |Unsubscribed(now, events)| <= |now|
    ensures |Unsubscribed(now, events)| == |now| ==> Unsubscribed(now, events) == now
  {
    if now != [] { UnsubscribedShrinks(now[..|now| - 1], events); }
  }
}
