/** The roster in memory against the table: what a restart would load. */
module RosterSync {
  import opened PolicyModel
  import opened ManagerModel
  import opened AdminModel

  /** One entry as a restart would load it from its row. */
  function LoadOne(row: AdminInfo): AdminInfo {
    var info := ReadRow(row);
    if info.adminType == BYOD then info.(accessiblePolicies := BYOD_POLICIES) else info
  }

  ghost predicate KnownTypes(rows: seq<Row>) {
    forall i :: 0 <= i < |rows| ==> rows[i].info.adminType != UNKNOWN
  }

  /** Entry by entry, the list is what its rows load as. */
  ghost predicate ListInSync(list: seq<AdminInfo>, rows: seq<AdminInfo>) {
    |list| == |rows| && forall i :: 0 <= i < |list| ==> list[i] == LoadOne(rows[i])
  }

  /** The roster is what a restart would load, no user has an empty list, and every row has a known type. */
  ghost predicate InSync(r: Roster) {
    && KnownTypes(r.rows)
    && forall u :: (u in r.admins <==> RowsOf(r.rows, u) != []) && ListInSync(ListOf(r.admins, u), RowsOf(r.rows, u))
  }

  // ----- In sync means that a restart loads the same roster -----

  lemma {:induction false} RowsOfKnown(rows: seq<Row>, u: int)
    requires KnownTypes(rows)
    ensures forall i :: 0 <= i < |RowsOf(rows, u)| ==> RowsOf(rows, u)[i].adminType != UNKNOWN
  {
    if rows != [] { RowsOfKnown(rows[..|rows| - 1], u); }
  }

  lemma ReloadIs(rows: seq<Row>, u: int)
    requires KnownTypes(rows)
    ensures ListInSync(ReloadUser(rows, u), RowsOf(rows, u))
  {
    RowsOfKnown(rows, u);
    CopiesKept(ReadRows(RowsOf(rows, u)));
  }

  lemma {:induction false} QueryIs(rows: seq<Row>, u: int)
    ensures u in QueryRows(rows) <==> RowsOf(rows, u) != []
    ensures ListOf(QueryRows(rows), u) == ReadRows(RowsOf(rows, u))
  {
    if rows != [] { QueryIs(rows[..|rows| - 1], u); }
  }

  /** What `Init` builds from the table at a start. */
  function Restarted(rows: seq<Row>): Admins {
    InitAdminsSpec(map[], QueryRows(rows))
  }

  lemma SyncIsRestart(r: Roster)
    requires KnownTypes(r.rows)
    ensures InSync(r) <==> r.admins == Restarted(r.rows)
  {
    var loaded := Restarted(r.rows);
    forall u
      ensures (u in loaded <==> RowsOf(r.rows, u) != []) && ListInSync(ListOf(loaded, u), RowsOf(r.rows, u))
    {
      QueryIs(r.rows, u);
      ReloadIs(r.rows, u);
    }
    if InSync(r) {
      forall u ensures (u in r.admins <==> u in loaded) && (u in loaded ==> r.admins[u] == loaded[u]) {
        assert ListOf(r.admins, u) == ListOf(loaded, u);
      }
    }
  }

  // ----- Rows of one user -----

  lemma {:induction false} RowsOfChange(rows: seq<Row>, userId: int, p: string, change: Change, u: int)
    ensures RowsOf(ChangeRows(rows, userId, p, change), u) ==
            if u == userId then Changed(RowsOf(rows, u), p, change) else RowsOf(rows, u)
  {
    if rows != [] {
      var init, last := rows[..|rows| - 1], rows[|rows| - 1];
      RowsOfChange(init, userId, p, change, u);
      assert ChangeRows(rows, userId, p, change)[..|rows| - 1] == ChangeRows(init, userId, p, change);
      var before := RowsOf(init, u);
      if u == userId == last.userId {
        var after := if last.info.packageName == p then Apply(change, last.info) else last.info;
        assert Changed(before + [last.info], p, change) == Changed(before, p, change) + [after];
      }
    }
  }

  lemma {:induction false} RowsOfDelete(rows: seq<Row>, userId: int, p: string, u: int)
    ensures RowsOf(DeleteRows(rows, userId, p), u) == if u == userId then Without(RowsOf(rows, u), p)
                                                      else RowsOf(rows, u)
  {
    if rows != [] {
      var init, last := rows[..|rows| - 1], rows[|rows| - 1];
      RowsOfDelete(init, userId, p, u);
      var kept, before := DeleteRows(init, userId, p), RowsOf(init, u);
      assert (kept + [last])[..|kept|] == kept;
      assert (before + [last.info])[..|before|] == before;
    }
  }

  lemma RowsOfInsert(rows: seq<Row>, userId: int, info: AdminInfo, u: int)
    ensures RowsOf(InsertRow(rows, userId, info), u) == if u == userId then RowsOf(rows, u) + [info]
                                                        else RowsOf(rows, u)
  {
    assert InsertRow(rows, userId, info)[..|rows|] == rows;
  }

  // ----- One entry under a change -----

  /** An update leaves the entry what its row loads as exactly in these cases. */
  predicate ValueWritten(e: AdminInfo, item: AdminInfo) {
    && (item.className == "" ==> e.className == "")
    && (item.entName == "" ==> e.entName == "")
    && (item.entDesc == "" ==> e.entDesc == "")
    && (item.runningMode == DEFAULT ==> e.runningMode == DEFAULT)
    && |item.permission| <= DEFAULT_LOOP_MAX_SIZE
    && if e.adminType != BYOD && item.adminType == VIRTUAL_ADMIN then |item.accessiblePolicies| <= DEFAULT_LOOP_MAX_SIZE
       else item.accessiblePolicies == e.accessiblePolicies
  }

  lemma CopyValueSync(row: AdminInfo, item: AdminInfo)
    ensures Apply(CopyValue(item), LoadOne(row)) == LoadOne(Apply(UpdateBucket(item), row)) <==>
            ValueWritten(LoadOne(row), item)
  {
  }

  lemma EventsSync(row: AdminInfo, events: seq<int>)
    ensures Apply(CopyEvents(events), LoadOne(row)) == LoadOne(Apply(CopyEvents(events), row)) <==>
            |events| <= DEFAULT_LOOP_MAX_SIZE
    ensures Apply(CopyEvents(events), LoadOne(row)) == LoadOne(row) <==> LoadOne(row).managedEvents == events
  {
  }

  lemma PermissionSync(row: AdminInfo, p: string, permission: seq<string>)
    ensures var item := NO_INFO.(packageName := p, permission := permission);
            Apply(CopyPermission(permission), LoadOne(row)) == LoadOne(Apply(UpdateBucket(item), row))
            <==> |permission| <= DEFAULT_LOOP_MAX_SIZE
  {
  }

  lemma EntInfoSync(row: AdminInfo, entName: string, entDesc: string)
    ensures Apply(CopyEntInfo(entName, entDesc), LoadOne(row)) == LoadOne(Apply(CopyEntInfo(entName, entDesc), row))
  {
  }

  // ----- The operations -----

  datatype RosterOp =
    | SetValue(userId: int, item: AdminInfo)
    | SetPermission(userId: int, packageName: string, permission: seq<string>)
    | SetEnt(userId: int, packageName: string, entName: string, entDesc: string)
    | Subscribe(userId: int, packageName: string, events: seq<int>)
    | Unsubscribe(userId: int, packageName: string, events: seq<int>)
    | Remove(userId: int, packageName: string)

  function Step(r: Roster, op: RosterOp, io: Outcome): Roster {
    match op
    case SetValue(u, item) => SetAdminValueSpec(r, u, item, io).roster
    case SetPermission(u, p, permission) => UpdatePermissionSpec(r, u, p, permission, io).roster
    case SetEnt(u, p, name, desc) => SetEntInfoSpec(r, u, p, name, desc, io).roster
    case Subscribe(u, p, events) => SaveSubscribeEventsSpec(r, u, p, events, io).roster
    case Unsubscribe(u, p, events) => RemoveSubscribeEventsSpec(r, u, p, events, io).roster
    case Remove(u, p) => DeleteAdminSpec(r, u, p, io).roster
  }

  /** Every entry of the package in the user's own list. */
  ghost predicate EachNamed(r: Roster, u: int, p: string, test: AdminInfo -> bool) {
    forall i :: 0 <= i < |ListOf(r.admins, u)| && ListOf(r.admins, u)[i].packageName == p ==>
      test(ListOf(r.admins, u)[i])
  }

  /** A new entry loads back unless its item carries what the insert does not write. */
  predicate InsertWritten(item: AdminInfo) {
    && item.adminType != UNKNOWN && item.managedEvents == [] && |item.permission| <= DEFAULT_LOOP_MAX_SIZE
    && if item.adminType == VIRTUAL_ADMIN then |item.accessiblePolicies| <= DEFAULT_LOOP_MAX_SIZE
       else item.adminType == BYOD || item.accessiblePolicies == []
  }

  ghost predicate EventsWritten(r: Roster, u: int, p: string, was: seq<int>, now: seq<int>) {
    EachNamed(r, u, p, (e: AdminInfo) => if |was| != |now| then |now| <= DEFAULT_LOOP_MAX_SIZE
                                         else e.managedEvents == now)
  }

  /** What a caller can check before a call: exactly then the call keeps roster and table in step. */
  ghost predicate Faithful(r: Roster, op: RosterOp) {
    match op
    case SetValue(u, item) =>
      if AdminByPkgName(r.admins, item.packageName, u).Some?
      then EachNamed(r, u, item.packageName, (e: AdminInfo) => ValueWritten(e, item)) else InsertWritten(item)
    case SetPermission(u, p, permission) => EachNamed(r, u, p, (e: AdminInfo) => |permission| <= DEFAULT_LOOP_MAX_SIZE)
    case SetEnt(u, p, _, _) => true
    case Subscribe(u, p, events) =>
      (match AdminByPkgName(r.admins, p, u)
       case None => true
       case Some(a) => EventsWritten(r, u, p, a.managedEvents, Subscribed(a.managedEvents, events)))
    case Unsubscribe(u, p, events) =>
      (match AdminByPkgName(r.admins, p, u)
       case None => true
       case Some(a) => EventsWritten(r, u, p, a.managedEvents, Unsubscribed(a.managedEvents, events)))
    case Remove(_, _) => true
  }

  // ----- Lists under a change -----

  /** The change of the entry is the change of its row. */
  predicate SameChange(row: AdminInfo, memory: Change, table: Option<Change>) {
    Apply(memory, LoadOne(row)) == LoadOne(if table.Some? then Apply(table.value, row) else row)
  }

  function TableChanged(rows: seq<AdminInfo>, p: string, table: Option<Change>): seq<AdminInfo> {
    if table.Some? then Changed(rows, p, table.value) else rows
  }

  lemma ListChangeIff(list: seq<AdminInfo>, rows: seq<AdminInfo>, p: string, memory: Change, table: Option<Change>)
    requires ListInSync(list, rows)
    ensures ListInSync(Changed(list, p, memory), TableChanged(rows, p, table)) <==>
            forall i :: 0 <= i < |rows| && rows[i].packageName == p ==> SameChange(rows[i], memory, table)
  {
    var list', rows' := Changed(list, p, memory), TableChanged(rows, p, table);
    forall i | 0 <= i < |rows|
      ensures list'[i] == LoadOne(rows'[i]) <==> (rows[i].packageName == p ==> SameChange(rows[i], memory, table))
    {
      assert list[i] == LoadOne(rows[i]);
    }
  }

  predicate KeepsType(change: Change) {
    change.CopyEntInfo? || change.CopyEvents? || change.UpdateBucket?
  }

  function ChangedRoster(r: Roster, u: int, p: string, memory: Change, table: Option<Change>): Roster {
    Roster(ChangeByUser(r.admins, u, p, memory), if table.Some? then ChangeRows(r.rows, u, p, table.value) else r.rows)
  }

  lemma ChangeSyncIff(r: Roster, u: int, p: string, memory: Change, table: Option<Change>)
    requires InSync(r) && (table.Some? ==> KeepsType(table.value))
    ensures var rows := RowsOf(r.rows, u);
            InSync(ChangedRoster(r, u, p, memory, table)) <==>
            forall i :: 0 <= i < |rows| && rows[i].packageName == p ==> SameChange(rows[i], memory, table)
  {
    var r' := ChangedRoster(r, u, p, memory, table);
    var rows := RowsOf(r.rows, u);
    forall v ensures RowsOf(r'.rows, v) == if v == u then TableChanged(rows, p, table) else RowsOf(r.rows, v) {
      if table.Some? { RowsOfChange(r.rows, u, p, table.value, v); }
    }
    assert ListOf(r'.admins, u) == Changed(ListOf(r.admins, u), p, memory);
    assert (u in r.admins <==> RowsOf(r.rows, u) != []) && ListInSync(ListOf(r.admins, u), RowsOf(r.rows, u));
    ListChangeIff(ListOf(r.admins, u), rows, p, memory, table);
    assert RowsOf(r'.rows, u) == TableChanged(rows, p, table);
    if forall i :: 0 <= i < |rows| && rows[i].packageName == p ==> SameChange(rows[i], memory, table) {
      forall v ensures (v in r'.admins <==> RowsOf(r'.rows, v) != []) &&
        ListInSync(ListOf(r'.admins, v), RowsOf(r'.rows, v))
      {
        assert (v in r.admins <==> RowsOf(r.rows, v) != []) && ListInSync(ListOf(r.admins, v), RowsOf(r.rows, v));
      }
    }
  }

  /** The entries of the package are what their rows load as, so a test of the one is a test of the other. */
  lemma NamedRows(r: Roster, u: int, p: string, test: AdminInfo -> bool)
    requires InSync(r)
    ensures var rows := RowsOf(r.rows, u);
            EachNamed(r, u, p, test) <==>
              forall i :: 0 <= i < |rows| && rows[i].packageName == p ==> test(LoadOne(rows[i]))
  {
    var list, rows := ListOf(r.admins, u), RowsOf(r.rows, u);
    assert ListInSync(list, rows);
    if EachNamed(r, u, p, test) {
      forall i | 0 <= i < |rows| && rows[i].packageName == p ensures test(LoadOne(rows[i])) {
        assert ListOf(r.admins, u)[i] == LoadOne(rows[i]);
      }
    }
    if forall i :: 0 <= i < |rows| && rows[i].packageName == p ==> test(LoadOne(rows[i])) {
      forall i | 0 <= i < |list| && list[i].packageName == p ensures test(list[i]) {
        assert list[i] == LoadOne(rows[i]) && rows[i].packageName == p;
      }
    }
  }

  // ----- Each operation -----

  lemma SetValueSyncIff(r: Roster, u: int, item: AdminInfo)
    requires InSync(r)
    ensures InSync(Step(r, SetValue(u, item), Done)) <==> Faithful(r, SetValue(u, item))
  {
    if AdminByPkgName(r.admins, item.packageName, u).Some? {
      var test := (e: AdminInfo) => ValueWritten(e, item);
      ChangeSyncIff(r, u, item.packageName, CopyValue(item), Some(UpdateBucket(item)));
      NamedRows(r, u, item.packageName, test);
      var rows := RowsOf(r.rows, u);
      forall i | 0 <= i < |rows|
        ensures SameChange(rows[i], CopyValue(item), Some(UpdateBucket(item))) <==> test(LoadOne(rows[i]))
      {
        CopyValueSync(rows[i], item);
      }
      assert Step(r, SetValue(u, item), Done) ==
             ChangedRoster(r, u, item.packageName, CopyValue(item), Some(UpdateBucket(item)));
    } else {
      InsertSyncIff(r, u, item);
    }
  }

  lemma InsertSyncIff(r: Roster, u: int, item: AdminInfo)
    requires InSync(r)
    ensures InSync(Roster(SetByUser(r.admins, u, item), InsertRow(r.rows, u, InsertBucket(item)))) <==>
            InsertWritten(item)
  {
    var row := InsertBucket(item);
    var r' := Roster(SetByUser(r.admins, u, item), InsertRow(r.rows, u, row));
    forall v ensures RowsOf(r'.rows, v) == if v == u then RowsOf(r.rows, v) + [row] else RowsOf(r.rows, v) {
      RowsOfInsert(r.rows, u, row, v);
    }
    var n := |RowsOf(r.rows, u)|;
    assert ListInSync(ListOf(r.admins, u), RowsOf(r.rows, u));
    assert r'.rows[|r.rows|].info == row;
    if item.adminType != UNKNOWN {
      var created := CreateAdmin(item).value;
      assert ListOf(r'.admins, u) == ListOf(r.admins, u) + [created];
      assert InsertWritten(item) <==> created == LoadOne(row);
      if InSync(r') { assert ListOf(r'.admins, u)[n] == LoadOne(RowsOf(r'.rows, u)[n]); }
      if InsertWritten(item) {
        forall v ensures (v in r'.admins <==> RowsOf(r'.rows, v) != []) &&
          ListInSync(ListOf(r'.admins, v), RowsOf(r'.rows, v))
        {
          assert (v in r.admins <==> RowsOf(r.rows, v) != []) && ListInSync(ListOf(r.admins, v), RowsOf(r.rows, v));
        }
      }
    }
  }

  lemma SetPermissionSyncIff(r: Roster, u: int, p: string, permission: seq<string>)
    requires InSync(r)
    ensures InSync(Step(r, SetPermission(u, p, permission), Done)) <==> Faithful(r, SetPermission(u, p, permission))
  {
    var table := UpdateBucket(NO_INFO.(packageName := p, permission := permission));
    ChangeSyncIff(r, u, p, CopyPermission(permission), Some(table));
    NamedRows(r, u, p, (e: AdminInfo) => |permission| <= DEFAULT_LOOP_MAX_SIZE);
    var rows := RowsOf(r.rows, u);
    forall i | 0 <= i < |rows|
      ensures SameChange(rows[i], CopyPermission(permission), Some(table)) <==> |permission| <= DEFAULT_LOOP_MAX_SIZE
    {
      PermissionSync(rows[i], p, permission);
    }
    assert Step(r, SetPermission(u, p, permission), Done) ==
           ChangedRoster(r, u, p, CopyPermission(permission), Some(table));
  }

  lemma SetEntSync(r: Roster, u: int, p: string, name: string, desc: string)
    requires InSync(r)
    ensures InSync(Step(r, SetEnt(u, p, name, desc), Done))
  {
    var change := CopyEntInfo(name, desc);
    ChangeSyncIff(r, u, p, change, Some(change));
    var rows := RowsOf(r.rows, u);
    forall i | 0 <= i < |rows| ensures SameChange(rows[i], change, Some(change)) { EntInfoSync(rows[i], name, desc); }
    assert Step(r, SetEnt(u, p, name, desc), Done) == ChangedRoster(r, u, p, change, Some(change));
  }

  lemma EventsSyncIff(r: Roster, u: int, p: string, was: seq<int>, now: seq<int>)
    requires InSync(r)
    ensures InSync(SetEventsSpec(r, u, p, was, now, Done).roster) <==> EventsWritten(r, u, p, was, now)
  {
    var table := if |was| != |now| then Some(CopyEvents(now)) else None;
    var test := (e: AdminInfo) => if |was| != |now| then |now| <= DEFAULT_LOOP_MAX_SIZE else e.managedEvents == now;
    ChangeSyncIff(r, u, p, CopyEvents(now), table);
    NamedRows(r, u, p, test);
    var rows := RowsOf(r.rows, u);
    forall i | 0 <= i < |rows| ensures SameChange(rows[i], CopyEvents(now), table) <==> test(LoadOne(rows[i])) {
      EventsSync(rows[i], now);
    }
    assert SetEventsSpec(r, u, p, was, now, Done).roster == ChangedRoster(r, u, p, CopyEvents(now), table);
  }

  lemma {:induction false} WithoutInSync(list: seq<AdminInfo>, rows: seq<AdminInfo>, p: string)
    requires ListInSync(list, rows)
    ensures ListInSync(Without(list, p), Without(rows, p))
  {
    if list != [] {
      var n := |list| - 1;
      WithoutInSync(list[..n], rows[..n], p);
      assert list[n] == LoadOne(rows[n]) && list[n].packageName == rows[n].packageName;
      AppendInSync(Without(list[..n], p), Without(rows[..n], p), list[n], rows[n]);
    }
  }

  lemma AppendInSync(list: seq<AdminInfo>, rows: seq<AdminInfo>, e: AdminInfo, row: AdminInfo)
    requires ListInSync(list, rows)
    ensures ListInSync(list + [e], rows + [row]) <==> e == LoadOne(row)
  {
    assert (list + [e])[|list|] == e && (rows + [row])[|rows|] == row;
  }

  lemma {:induction false} DeleteKnown(rows: seq<Row>, u: int, p: string)
    requires KnownTypes(rows)
    ensures KnownTypes(DeleteRows(rows, u, p))
  {
    if rows != [] { DeleteKnown(rows[..|rows| - 1], u, p); }
  }

  lemma RemoveSync(r: Roster, u: int, p: string)
    requires InSync(r)
    ensures InSync(Step(r, Remove(u, p), Done))
  {
    if u in r.admins {
      var r' := Step(r, Remove(u, p), Done);
      DeleteKnown(r.rows, u, p);
      forall v ensures (v in r'.admins <==> RowsOf(r'.rows, v) != []) &&
        ListInSync(ListOf(r'.admins, v), RowsOf(r'.rows, v))
      {
        assert (v in r.admins <==> RowsOf(r.rows, v) != []) && ListInSync(ListOf(r.admins, v), RowsOf(r.rows, v));
        RowsOfDelete(r.rows, u, p, v);
        if v == u { WithoutInSync(r.admins[u], RowsOf(r.rows, u), p); }
      }
    }
  }

  /** Each completed call keeps roster and table in step exactly when the caller's check holds. */
  lemma StepSyncIff(r: Roster, op: RosterOp)
    requires InSync(r)
    ensures InSync(Step(r, op, Done)) <==> Faithful(r, op)
  {
    match op
    case SetValue(u, item) => SetValueSyncIff(r, u, item);
    case SetPermission(u, p, permission) => SetPermissionSyncIff(r, u, p, permission);
    case SetEnt(u, p, name, desc) => SetEntSync(r, u, p, name, desc);
    case Subscribe(u, p, events) =>
      match AdminByPkgName(r.admins, p, u) {
        case None =>
        case Some(a) => EventsSyncIff(r, u, p, a.managedEvents, Subscribed(a.managedEvents, events));
      }
    case Unsubscribe(u, p, events) =>
      match AdminByPkgName(r.admins, p, u) {
        case None =>
        case Some(a) => EventsSyncIff(r, u, p, a.managedEvents, Unsubscribed(a.managedEvents, events));
      }
    case Remove(u, p) => RemoveSync(r, u, p);
  }

  lemma EmptyInSync()
    ensures InSync(Roster(map[], []))
  {
    assert forall u :: RowsOf([], u) == [];
  }

  lemma InsertFirst(item: AdminInfo)
    requires InsertWritten(item) && item.adminType != BYOD
    ensures SetByUser(map[], DEFAULT_USER_ID, item) == map[DEFAULT_USER_ID := [item]]
    ensures InsertRow([], DEFAULT_USER_ID, InsertBucket(item)) == [Row(DEFAULT_USER_ID, item)]
  {
    assert ListOf(map[], DEFAULT_USER_ID) == [] && [] + [item] == [item];
    assert map[][DEFAULT_USER_ID := [item]] == map[DEFAULT_USER_ID := [item]];
    assert InsertBucket(item) == item;
  }

  lemma FirstInSync(item: AdminInfo)
    requires InsertWritten(item) && item.adminType != BYOD
    ensures InSync(Roster(map[DEFAULT_USER_ID := [item]], [Row(DEFAULT_USER_ID, item)]))
  {
    EmptyInSync();
    InsertFirst(item);
    InsertSyncIff(Roster(map[], []), DEFAULT_USER_ID, item);
  }

  /** From an empty roster an administrator is saved with an enterprise name and then again without one: the roster
      loses the name, the row keeps it, and a restart brings it back. */
  lemma SavedAgainKeepsName(item: AdminInfo)
    requires InsertWritten(item) && item.entName != "" && item.adminType != BYOD
    ensures var r := Step(Roster(map[], []), SetValue(DEFAULT_USER_ID, item), Done);
            var r' := Step(r, SetValue(DEFAULT_USER_ID, item.(entName := "")), Done);
            && InSync(r) && !InSync(r')
            && r'.admins == map[DEFAULT_USER_ID := [item.(entName := "")]]
            && Restarted(r'.rows) == map[DEFAULT_USER_ID := [item]]
  {
    SavedOnce(item);
    SavedTwice(item);
    FirstInSync(item);
    var r := Step(Roster(map[], []), SetValue(DEFAULT_USER_ID, item), Done);
    SyncIsRestart(r);
    SyncIsRestart(Step(r, SetValue(DEFAULT_USER_ID, item.(entName := "")), Done));
    assert map[DEFAULT_USER_ID := [item]][DEFAULT_USER_ID] == [item];
  }

  lemma SavedOnce(item: AdminInfo)
    requires InsertWritten(item) && item.adminType != BYOD
    ensures Step(Roster(map[], []), SetValue(DEFAULT_USER_ID, item), Done) ==
            Roster(map[DEFAULT_USER_ID := [item]], [Row(DEFAULT_USER_ID, item)])
  {
    assert Copies([]) == [] && ListOf(map[], DEFAULT_USER_ID) == [] && FindNamed([], item.packageName) == None;
    InsertFirst(item);
  }

  lemma SavedTwice(item: AdminInfo)
    requires InsertWritten(item) && item.adminType != BYOD
    ensures Step(Roster(map[DEFAULT_USER_ID := [item]], [Row(DEFAULT_USER_ID, item)]),
                 SetValue(DEFAULT_USER_ID, item.(entName := "")), Done) ==
            Roster(map[DEFAULT_USER_ID := [item.(entName := "")]], [Row(DEFAULT_USER_ID, item)])
  {
    var again := item.(entName := "");
    assert [item][..0] == [] && Copies([]) == [] && Copies([item]) == [item];
    assert Changed([item], item.packageName, CopyValue(again)) == [again];
    assert Apply(UpdateBucket(again), item) == item;
    var rows := [Row(DEFAULT_USER_ID, item)];
    assert ChangeRows(rows, DEFAULT_USER_ID, item.packageName, UpdateBucket(again)) == rows;
    assert map[DEFAULT_USER_ID := [item]][DEFAULT_USER_ID := [again]] == map[DEFAULT_USER_ID := [again]];
  }

  function RunOps(r: Roster, ops: seq<RosterOp>): Roster {
    if ops == [] then r else Step(RunOps(r, ops[..|ops| - 1]), ops[|ops| - 1], Done)
  }

  ghost predicate FaithfulRun(r: Roster, ops: seq<RosterOp>) {
    forall i :: 0 <= i < |ops| ==> Faithful(RunOps(r, ops[..i]), ops[i])
  }

  /** After a run of such calls a restart loads the roster as it is, field by field. */
  lemma {:induction false} RunReloads(r: Roster, ops: seq<RosterOp>)
    requires InSync(r) && FaithfulRun(r, ops)
    ensures InSync(RunOps(r, ops)) && RunOps(r, ops).admins == Restarted(RunOps(r, ops).rows)
  {
    if ops != [] {
      var init := ops[..|ops| - 1];
      forall i | 0 <= i < |init| ensures Faithful(RunOps(r, init[..i]), init[i]) { assert init[..i] == ops[..i]; }
      RunReloads(r, init);
      StepSyncIff(RunOps(r, init), ops[|ops| - 1]);
    }
    SyncIsRestart(RunOps(r, ops));
  }

  // ----- Fields no call can bring out of step -----

  datatype Core = Core(packageName: string, adminType: AdminType, parentAdminName: string, isDebug: bool,
                       enableSource: EnableSource, permission: seq<string>)

  function CoreOf(info: AdminInfo): Core {
    Core(info.packageName, info.adminType, info.parentAdminName, info.isDebug, info.enableSource, info.permission)
  }

  function CoresOf(list: seq<AdminInfo>): seq<Core> {
    seq(|list|, i requires 0 <= i < |list| => CoreOf(list[i]))
  }

  ghost predicate CoreInSync(r: Roster) {
    && KnownTypes(r.rows)
    && forall u ::
         (u in r.admins <==> RowsOf(r.rows, u) != []) && CoresOf(ListOf(r.admins, u)) == CoresOf(RowsOf(r.rows, u))
  }

  lemma CoresChange(list: seq<AdminInfo>, rows: seq<AdminInfo>, p: string, memory: Change, table: Option<Change>)
    requires CoresOf(list) == CoresOf(rows) && |list| == |rows|
    requires forall e, row :: CoreOf(e) == CoreOf(row) ==>
               CoreOf(Apply(memory, e)) == CoreOf(if table.Some? then Apply(table.value, row) else row)
    ensures CoresOf(Changed(list, p, memory)) == CoresOf(TableChanged(rows, p, table))
  {
    var list', rows' := Changed(list, p, memory), TableChanged(rows, p, table);
    forall i | 0 <= i < |list| ensures CoreOf(list'[i]) == CoreOf(rows'[i]) {
      assert CoresOf(list)[i] == CoresOf(rows)[i];
    }
  }

  lemma ChangeKeepsCore(r: Roster, u: int, p: string, memory: Change, table: Option<Change>)
    requires CoreInSync(r) && (table.Some? ==> KeepsType(table.value))
    requires forall e, row :: CoreOf(e) == CoreOf(row) ==>
               CoreOf(Apply(memory, e)) == CoreOf(if table.Some? then Apply(table.value, row) else row)
    ensures CoreInSync(ChangedRoster(r, u, p, memory, table))
  {
    var r' := ChangedRoster(r, u, p, memory, table);
    forall v ensures (v in r'.admins <==> RowsOf(r'.rows, v) != []) &&
      CoresOf(ListOf(r'.admins, v)) == CoresOf(RowsOf(r'.rows, v))
    {
      assert (v in r.admins <==> RowsOf(r.rows, v) != []) && CoresOf(ListOf(r.admins, v)) == CoresOf(RowsOf(r.rows, v));
      if table.Some? { RowsOfChange(r.rows, u, p, table.value, v); }
      assert |CoresOf(ListOf(r.admins, v))| == |CoresOf(RowsOf(r.rows, v))|;
      if v == u {
        CoresChange(ListOf(r.admins, u), RowsOf(r.rows, u), p, memory, table);
        assert ListOf(r'.admins, u) == Changed(ListOf(r.admins, u), p, memory);
      }
    }
  }

  lemma {:induction false} CoresWithout(list: seq<AdminInfo>, rows: seq<AdminInfo>, p: string)
    requires CoresOf(list) == CoresOf(rows) && |list| == |rows|
    ensures CoresOf(Without(list, p)) == CoresOf(Without(rows, p))
  {
    if list != [] {
      var n := |list| - 1;
      assert CoresOf(list[..n]) == CoresOf(list)[..n] && CoresOf(rows[..n]) == CoresOf(rows)[..n];
      CoresWithout(list[..n], rows[..n], p);
      assert CoresOf(list)[n] == CoresOf(rows)[n] && CoreOf(list[n]) == CoreOf(rows[n]);
      CoresAppend(Without(list[..n], p), list[n]);
      CoresAppend(Without(rows[..n], p), rows[n]);
    }
  }

  lemma CoresAppend(list: seq<AdminInfo>, e: AdminInfo)
    ensures CoresOf(list + [e]) == CoresOf(list) + [CoreOf(e)]
  {
  }

  lemma RemoveKeepsCore(r: Roster, u: int, p: string, io: Outcome)
    requires CoreInSync(r)
    ensures CoreInSync(Step(r, Remove(u, p), io))
  {
    DeleteKeepsCore(r, u, p);
  }

  lemma DeleteKeepsCore(r: Roster, u: int, p: string)
    requires CoreInSync(r)
    ensures CoreInSync(Roster(DeleteByUser(r.admins, u, p), DeleteRows(r.rows, u, p)))
  {
    var r' := Roster(DeleteByUser(r.admins, u, p), DeleteRows(r.rows, u, p));
    DeleteKnown(r.rows, u, p);
    forall v ensures (v in r'.admins <==> RowsOf(r'.rows, v) != []) &&
      CoresOf(ListOf(r'.admins, v)) == CoresOf(RowsOf(r'.rows, v))
    {
      assert (v in r.admins <==> RowsOf(r.rows, v) != []) && CoresOf(ListOf(r.admins, v)) == CoresOf(RowsOf(r.rows, v));
      assert |CoresOf(ListOf(r.admins, v))| == |CoresOf(RowsOf(r.rows, v))|;
      RowsOfDelete(r.rows, u, p, v);
      if v == u {
        CoresWithout(ListOf(r.admins, u), RowsOf(r.rows, u), p);
        assert |CoresOf(Without(ListOf(r.admins, u), p))| == |CoresOf(Without(RowsOf(r.rows, u), p))|;
      }
    }
  }

  lemma InsertKeepsCore(r: Roster, u: int, item: AdminInfo)
    requires CoreInSync(r) && item.adminType != UNKNOWN
    ensures CoreInSync(Roster(SetByUser(r.admins, u, item), InsertRow(r.rows, u, InsertBucket(item))))
  {
    var row := InsertBucket(item);
    var r' := Roster(SetByUser(r.admins, u, item), InsertRow(r.rows, u, row));
    forall v ensures (v in r'.admins <==> RowsOf(r'.rows, v) != []) &&
      CoresOf(ListOf(r'.admins, v)) == CoresOf(RowsOf(r'.rows, v))
    {
      assert (v in r.admins <==> RowsOf(r.rows, v) != []) && CoresOf(ListOf(r.admins, v)) == CoresOf(RowsOf(r.rows, v));
      RowsOfInsert(r.rows, u, row, v);
      if v == u {
        CoresAppend(ListOf(r.admins, u), CreateAdmin(item).value);
        CoresAppend(RowsOf(r.rows, u), row);
      }
    }
  }

  lemma SetValueKeepsCore(r: Roster, u: int, item: AdminInfo, io: Outcome)
    requires CoreInSync(r) && item.adminType != UNKNOWN
    ensures CoreInSync(SetAdminValueSpec(r, u, item, io).roster)
  {
    if AdminByPkgName(r.admins, item.packageName, u).Some? {
      ChangeKeepsCore(r, u, item.packageName, CopyValue(item), Some(UpdateBucket(item)));
    } else {
      InsertKeepsCore(r, u, item);
    }
  }

  lemma EventsKeepCore(r: Roster, u: int, p: string, now: seq<int>, written: bool)
    requires CoreInSync(r)
    ensures CoreInSync(ChangedRoster(r, u, p, CopyEvents(now), if written then Some(CopyEvents(now)) else None))
  {
    ChangeKeepsCore(r, u, p, CopyEvents(now), if written then Some(CopyEvents(now)) else None);
  }

  lemma StepKeepsCore(r: Roster, op: RosterOp, io: Outcome)
    requires CoreInSync(r) && (op.SetValue? ==> op.item.adminType != UNKNOWN)
    ensures CoreInSync(Step(r, op, io))
  {
    match op
    case SetValue(u, item) => SetValueKeepsCore(r, u, item, io);
    case SetPermission(u, p, permission) =>
      ChangeKeepsCore(r, u, p, CopyPermission(permission),
                      Some(UpdateBucket(NO_INFO.(packageName := p, permission := permission))));
    case SetEnt(u, p, name, desc) => ChangeKeepsCore(r, u, p, CopyEntInfo(name, desc), Some(CopyEntInfo(name, desc)));
    case Subscribe(u, p, events) =>
      match AdminByPkgName(r.admins, p, u) {
        case None =>
        case Some(a) =>
          var now := Subscribed(a.managedEvents, events);
          EventsKeepCore(r, u, p, now, |a.managedEvents| != |now|);
      }
    case Unsubscribe(u, p, events) =>
      match AdminByPkgName(r.admins, p, u) {
        case None =>
        case Some(a) =>
          var now := Unsubscribed(a.managedEvents, events);
          EventsKeepCore(r, u, p, now, |a.managedEvents| != |now|);
      }
    case Remove(u, p) => RemoveKeepsCore(r, u, p, io);
  }

  function RunWith(r: Roster, ops: seq<(RosterOp, Outcome)>): Roster {
    if ops == [] then r else Step(RunWith(r, ops[..|ops| - 1]), ops[|ops| - 1].0, ops[|ops| - 1].1)
  }

  /** In every run, failures included, package, type, parent, debug flag, enable source and permissions of every entry
      are those of its row, and the users and the order of their administrators are the same. */
  lemma {:induction false} RunKeepsCore(r: Roster, ops: seq<(RosterOp, Outcome)>)
    requires CoreInSync(r)
    requires forall i :: 0 <= i < |ops| && ops[i].0.SetValue? ==> ops[i].0.item.adminType != UNKNOWN
    ensures CoreInSync(RunWith(r, ops))
  {
    if ops != [] {
      RunKeepsCore(r, ops[..|ops| - 1]);
      StepKeepsCore(RunWith(r, ops[..|ops| - 1]), ops[|ops| - 1].0, ops[|ops| - 1].1);
    }
  }
}
