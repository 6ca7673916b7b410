/** Administrators as values: the roster kept in memory, the rows kept in the table, and what each operation of
    the container, the storage and the administrator manager does to them. */
module AdminModel {
  import opened PolicyModel
  import opened ManagerModel

  datatype AdminType = NORMAL | ENT | BYOD | VIRTUAL_ADMIN | SUB_SUPER_ADMIN | UNKNOWN

  datatype RunningMode = DEFAULT | MULTI_USER

  datatype EnableSource = DEPLOY | REPLACE_SOURCE | SUPER_ADMIN | INTRANET_DEPLOY

  datatype AdminInfo = AdminInfo(
    packageName: string,
    className: string,
    entName: string,
    entDesc: string,
    permission: seq<string>,
    managedEvents: seq<int>,
    parentAdminName: string,
    accessiblePolicies: seq<string>,
    adminType: AdminType,
    isDebug: bool,
    runningMode: RunningMode,
    enableSource: EnableSource)

  const NO_INFO := AdminInfo("", "", "", "", [], [], "", [], UNKNOWN, false, DEFAULT, DEPLOY)

  type Admins = map<int, seq<AdminInfo>>

  /** One row of the table; a null column reads as an empty text or list. */
  datatype Row = Row(userId: int, info: AdminInfo)

  datatype Roster = Roster(admins: Admins, rows: seq<Row>)

  datatype AdminErr = AdminOk | StorageUnavailable | SystemAbnormally | UnknownAdmin | DelAdminError | SetParentError

  datatype RosterResult = RosterResult(roster: Roster, err: AdminErr)

  // ----- Administrator types -----

  /** The policies every BYOD administrator is created with. */
  const BYOD_POLICIES := ["disabled_bluetooth", "disable_camera", "disabled_hdc", "disable_microphone", "disable_usb",
    "disallowed_tethering", "disable_wifi", "set_switch_status", "disable_reset_factory", "policy_near_link",
    "policy_screen_record", "policy_screen_shot", "usb_read_only", "disabled_mtp_server", "disallowed_p2p"]

  /** A new administrator object keeps its information, except that BYOD fixes its policies; an unknown type has
      none. */
  function CreateAdmin(info: AdminInfo): Option<AdminInfo> {
    match info.adminType
    case UNKNOWN => None
    case BYOD => Some(info.(accessiblePolicies := BYOD_POLICIES))
    case _ => Some(info)
  }

  predicate IsAllowedAcrossAccountSetPolicy(t: AdminType) {
    t in {ENT, NORMAL, SUB_SUPER_ADMIN, VIRTUAL_ADMIN}
  }

  // ----- Lists -----

  function ListOf(admins: Admins, userId: int): seq<AdminInfo> {
    if userId in admins then admins[userId] else []
  }

  predicate Named(list: seq<AdminInfo>, packageName: string) {
    exists i :: 0 <= i < |list| && list[i].packageName == packageName
  }

  function FindNamed(list: seq<AdminInfo>, packageName: string): Option<AdminInfo> {
    if list == [] then None
    else if list[0].packageName == packageName then Some(list[0])
    else FindNamed(list[1..], packageName)
  }

  /** The first of the name that may act across accounts. */
  function FindAcross(list: seq<AdminInfo>, packageName: string): Option<AdminInfo> {
    if list == [] then None
    else if list[0].packageName == packageName && IsAllowedAcrossAccountSetPolicy(list[0].adminType) then Some(list[0])
    else FindAcross(list[1..], packageName)
  }

  /** The copies `GetAdminCopyByUserId` hands out. */
  function Copies(list: seq<AdminInfo>): seq<AdminInfo> {
    if list == [] then []
    else
      match CreateAdmin(list[|list| - 1])
      case Some(copy) => Copies(list[..|list| - 1]) + [copy]
      case None => Copies(list[..|list| - 1])
  }

  lemma {:induction false} CopiesKept(list: seq<AdminInfo>)
    requires forall i :: 0 <= i < |list| ==> list[i].adminType != UNKNOWN
    ensures |Copies(list)| == |list|
    ensures forall i :: 0 <= i < |list| ==> CreateAdmin(list[i]) == Some(Copies(list)[i])
  {
    if list != [] { CopiesKept(list[..|list| - 1]); }
  }

  function Without(list: seq<AdminInfo>, packageName: string): seq<AdminInfo> {
    if list == [] then []
    else if list[|list| - 1].packageName == packageName then Without(list[..|list| - 1], packageName)
    else Without(list[..|list| - 1], packageName) + [list[|list| - 1]]
  }

  /** What an update does to one entry or one row. */
  datatype Change =
    | CopyValue(item: AdminInfo)
    | CopyPermission(permission: seq<string>)
    | CopyEntInfo(entName: string, entDesc: string)
    | CopyEvents(events: seq<int>)
    | CopyIdentity(item: AdminInfo)
    | UpdateBucket(item: AdminInfo)
    | ReplaceBucket(item: AdminInfo)

  /** The first five are of the roster and the last two, with the enterprise information and the events, of the table.
      An update of a row skips an empty enterprise name, description and class name, the default running mode, and
      the accessible policies unless the item is virtual; a replacement writes class name and running mode anyway. */
  function Apply(change: Change, info: AdminInfo): AdminInfo {
    match change
    case CopyValue(item) =>
      info.(className := item.className, entName := item.entName, entDesc := item.entDesc,
            permission := item.permission, accessiblePolicies := item.accessiblePolicies,
            runningMode := item.runningMode)
    case CopyPermission(permission) => info.(permission := permission)
    case CopyEntInfo(entName, entDesc) => info.(entName := entName, entDesc := entDesc)
    case CopyEvents(events) => info.(managedEvents := events)
    case CopyIdentity(item) =>
      info.(packageName := item.packageName, className := item.className, enableSource := item.enableSource)
    case UpdateBucket(item) =>
      info.(entName := if item.entName == "" then info.entName else item.entName,
            entDesc := if item.entDesc == "" then info.entDesc else item.entDesc,
            className := if item.className == "" then info.className else item.className,
            permission := item.permission,
            accessiblePolicies := if item.adminType == VIRTUAL_ADMIN then item.accessiblePolicies
                                  else info.accessiblePolicies,
            runningMode := if item.runningMode == DEFAULT then info.runningMode else item.runningMode)
    case ReplaceBucket(item) =>
      item.(entName := if item.entName == "" then info.entName else item.entName,
            entDesc := if item.entDesc == "" then info.entDesc else item.entDesc,
            managedEvents := info.managedEvents,
            accessiblePolicies := if item.adminType == VIRTUAL_ADMIN then item.accessiblePolicies
                                  else info.accessiblePolicies)
  }

  /** The change on every entry of the package. */
  function Changed(list: seq<AdminInfo>, packageName: string, change: Change): seq<AdminInfo> {
    seq(|list|, i requires 0 <= i < |list| => if list[i].packageName == packageName then Apply(change, list[i])
                                              else list[i])
  }

  predicate AnyDebug(admins: Admins, isDebug: bool) {
    exists u | u in admins.Keys :: exists i | 0 <= i < |admins[u]| :: admins[u][i].isDebug == isDebug
  }

  predicate IsDeviceAdmin(info: AdminInfo) {
    info.adminType == ENT || info.adminType == NORMAL
  }

  function CountDeviceAdmins(list: seq<AdminInfo>): nat {
    if list == [] then 0
    else CountDeviceAdmins(list[..|list| - 1]) + if IsDeviceAdmin(list[|list| - 1]) then 1 else 0
  }

  // ----- Container -----

  function SetByUser(admins: Admins, userId: int, item: AdminInfo): Admins {
    match CreateAdmin(item)
    case Some(admin) => admins[userId := ListOf(admins, userId) + [admin]]
    case None => admins
  }

  /** A user without administrators is not kept. */
  function DeleteByUser(admins: Admins, userId: int, packageName: string): Admins {
    if userId !in admins then admins
    else
      var rest := Without(admins[userId], packageName);
      if rest == [] then admins - {userId} else admins[userId := rest]
  }

  function ChangeByUser(admins: Admins, userId: int, packageName: string, change: Change): Admins {
    if userId in admins then admins[userId := Changed(admins[userId], packageName, change)] else admins
  }

  // ----- Rows -----

  function InsertRow(rows: seq<Row>, userId: int, info: AdminInfo): seq<Row> {
    rows + [Row(userId, info)]
  }

  function DeleteRows(rows: seq<Row>, userId: int, packageName: string): seq<Row> {
    if rows == [] then []
    else
      var init, last := DeleteRows(rows[..|rows| - 1], userId, packageName), rows[|rows| - 1];
      if RowMatch(last, userId, packageName) then init else init + [last]
  }

  predicate RowMatch(r: Row, userId: int, packageName: string) {
    r.userId == userId && r.info.packageName == packageName
  }

  function ChangeRows(rows: seq<Row>, userId: int, packageName: string, change: Change): seq<Row> {
    seq(|rows|, i requires 0 <= i < |rows| =>
      if RowMatch(rows[i], userId, packageName) then rows[i].(info := Apply(change, rows[i].info)) else rows[i])
  }

  function RowsOf(rows: seq<Row>, userId: int): seq<AdminInfo> {
    if rows == [] then []
    else
      var init, last := RowsOf(rows[..|rows| - 1], userId), rows[|rows| - 1];
      if last.userId == userId then init + [last.info] else init
  }

  /** A new row: no subscribed events, and accessible policies only for a virtual administrator. */
  function InsertBucket(item: AdminInfo): AdminInfo {
    item.(managedEvents := [], accessiblePolicies := if item.adminType == VIRTUAL_ADMIN then item.accessiblePolicies
                                                     else [])
  }

  // ----- Manager -----

  /** Another user sees the default user's administrators that work across accounts first. */
  function AdminByPkgName(admins: Admins, packageName: string, userId: int): Option<AdminInfo> {
    var across := if userId == DEFAULT_USER_ID then None
                  else FindAcross(Copies(ListOf(admins, DEFAULT_USER_ID)), packageName);
    if across.Some? then across else FindNamed(Copies(ListOf(admins, userId)), packageName)
  }

  function UpdateAdminSpec(r: Roster, userId: int, item: AdminInfo, change: Change, io: Outcome): RosterResult {
    if io == Unavailable then RosterResult(r, StorageUnavailable)
    else if io == Failed then RosterResult(r, SystemAbnormally)
    else RosterResult(Roster(ChangeByUser(r.admins, userId, item.packageName, change),
                             ChangeRows(r.rows, userId, item.packageName, UpdateBucket(item))), AdminOk)
  }

  function SetAdminValueSpec(r: Roster, userId: int, item: AdminInfo, io: Outcome): RosterResult {
    if AdminByPkgName(r.admins, item.packageName, userId).Some?
    then UpdateAdminSpec(r, userId, item, CopyValue(item), io)
    else if io == Unavailable then RosterResult(r, StorageUnavailable)
    else if io == Failed then RosterResult(r, SystemAbnormally)
    else RosterResult(Roster(SetByUser(r.admins, userId, item), InsertRow(r.rows, userId, InsertBucket(item))), AdminOk)
  }

  function UpdatePermissionSpec(r: Roster, userId: int, packageName: string, permission: seq<string>,
                                io: Outcome): RosterResult
  {
    UpdateAdminSpec(r, userId, NO_INFO.(packageName := packageName, permission := permission),
                    CopyPermission(permission), io)
  }

  function DeleteAdminSpec(r: Roster, userId: int, packageName: string, io: Outcome): RosterResult {
    if userId !in r.admins then RosterResult(r, UnknownAdmin)
    else if io == Unavailable then RosterResult(r, StorageUnavailable)
    else if io == Failed then RosterResult(r, DelAdminError)
    else RosterResult(Roster(DeleteByUser(r.admins, userId, packageName), DeleteRows(r.rows, userId, packageName)),
                      AdminOk)
  }

  function SetEntInfoSpec(r: Roster, userId: int, packageName: string, entName: string, entDesc: string,
                          io: Outcome): RosterResult
  {
    if io == Unavailable then RosterResult(r, StorageUnavailable)
    else if io == Failed then RosterResult(r, UnknownAdmin)
    else
      var change := CopyEntInfo(entName, entDesc);
      RosterResult(Roster(ChangeByUser(r.admins, userId, packageName, change),
                          ChangeRows(r.rows, userId, packageName, change)), AdminOk)
  }

  /** The events after a subscription: new ones at the end, each once. */
  function Subscribed(now: seq<int>, events: seq<int>): seq<int> {
    if events == [] then now
    else
      var before := Subscribed(now, events[..|events| - 1]);
      if events[|events| - 1] in before then before else before + [events[|events| - 1]]
  }

  function Unsubscribed(now: seq<int>, events: seq<int>): seq<int> {
    if now == [] then []
    else if now[|now| - 1] in events then Unsubscribed(now[..|now| - 1], events)
    else Unsubscribed(now[..|now| - 1], events) + [now[|now| - 1]]
  }

  /** The row is only written when the number of events changes; the roster always. */
  function SetEventsSpec(r: Roster, userId: int, packageName: string, was: seq<int>, events: seq<int>,
                         io: Outcome): RosterResult
  {
    var change := CopyEvents(events);
    if |was| != |events| && io != Done then RosterResult(r, UnknownAdmin)
    else RosterResult(Roster(ChangeByUser(r.admins, userId, packageName, change),
                             if |was| != |events| then ChangeRows(r.rows, userId, packageName, change)
                             else r.rows), AdminOk)
  }

  function SaveSubscribeEventsSpec(r: Roster, userId: int, packageName: string, events: seq<int>,
                                   io: Outcome): RosterResult
  {
    match AdminByPkgName(r.admins, packageName, userId)
    case None => RosterResult(r, UnknownAdmin)
    case Some(admin) =>
      if io == Unavailable then RosterResult(r, StorageUnavailable)
      else SetEventsSpec(r, userId, packageName, admin.managedEvents, Subscribed(admin.managedEvents, events), io)
  }

  function RemoveSubscribeEventsSpec(r: Roster, userId: int, packageName: string, events: seq<int>,
                                     io: Outcome): RosterResult
  {
    match AdminByPkgName(r.admins, packageName, userId)
    case None => RosterResult(r, UnknownAdmin)
    case Some(admin) =>
      if io == Unavailable then RosterResult(r, StorageUnavailable)
      else SetEventsSpec(r, userId, packageName, admin.managedEvents, Unsubscribed(admin.managedEvents, events), io)
  }

  // ----- Replacing the super administrator -----

  /** The children found by name in the default user's roster. */
  function ChildrenOf(list: seq<AdminInfo>, parentName: string): seq<string> {
    if list == [] then []
    else
      var init, last := ChildrenOf(list[..|list| - 1], parentName), list[|list| - 1];
      if IsChildOf(last, parentName) then init + [last.packageName] else init
  }

  predicate IsChildOf(info: AdminInfo, parentName: string) {
    info.adminType in {SUB_SUPER_ADMIN, VIRTUAL_ADMIN} && info.parentAdminName == parentName
  }

  /** Every row of the child under the old parent, whatever its user. */
  function RenameParentRows(rows: seq<Row>, child: string, parentName: string, newName: string): seq<Row> {
    seq(|rows|, i requires 0 <= i < |rows| =>
      if rows[i].info.packageName == child && rows[i].info.parentAdminName == parentName
      then rows[i].(info := rows[i].info.(parentAdminName := newName)) else rows[i])
  }

  function RenameParents(list: seq<AdminInfo>, parentName: string, newName: string): seq<AdminInfo> {
    seq(|list|, i requires 0 <= i < |list| =>
      if IsChildOf(list[i], parentName) then list[i].(parentAdminName := newName) else list[i])
  }

  function RenameParentsByUser(admins: Admins, userId: int, parentName: string, newName: string): Admins {
    if userId in admins then admins[userId := RenameParents(admins[userId], parentName, newName)] else admins
  }

  /** The rows after the first `done` children were renamed. */
  function RenameChildRows(rows: seq<Row>, children: seq<string>, parentName: string, newName: string): seq<Row> {
    if children == [] then rows
    else RenameParentRows(RenameChildRows(rows, children[..|children| - 1], parentName, newName),
                          children[|children| - 1], parentName, newName)
  }

  /** `renamed` of the children's rows could be written; the roster only changes when all writes are done. */
  function ReplaceSuperAdminSpec(r: Roster, packageName: string, newInfo: AdminInfo, available: bool, renamed: nat,
                                 replaceIo: bool)
    : RosterResult
  {
    var children := ChildrenOf(Copies(ListOf(r.admins, DEFAULT_USER_ID)), packageName);
    if !available then RosterResult(r, StorageUnavailable)
    else if renamed < |children| then
      RosterResult(r.(rows := RenameChildRows(r.rows, children[..renamed], packageName, newInfo.packageName)),
                   SetParentError)
    else
      var rows := RenameChildRows(r.rows, children, packageName, newInfo.packageName);
      if !replaceIo then RosterResult(r.(rows := rows), SystemAbnormally)
      else
        var named := ChangeByUser(r.admins, DEFAULT_USER_ID, packageName, CopyIdentity(newInfo));
        RosterResult(Roster(RenameParentsByUser(named, DEFAULT_USER_ID, packageName, newInfo.packageName),
                            ChangeRows(rows, DEFAULT_USER_ID, packageName, ReplaceBucket(newInfo))), AdminOk)
  }

  // ----- Start-up -----

  /** Longer stored lists are read as empty. */
  const DEFAULT_LOOP_MAX_SIZE := 10000

  function ReadList<T>(list: seq<T>): seq<T> {
    if |list| > DEFAULT_LOOP_MAX_SIZE then [] else list
  }

  function ReadRow(info: AdminInfo): AdminInfo {
    info.(permission := ReadList(info.permission), managedEvents := ReadList(info.managedEvents),
          accessiblePolicies := ReadList(info.accessiblePolicies))
  }

  function ReadRows(list: seq<AdminInfo>): seq<AdminInfo> {
    seq(|list|, i requires 0 <= i < |list| => ReadRow(list[i]))
  }

  /** What `InitAdmins` makes of one user's rows. */
  function ReloadUser(rows: seq<Row>, userId: int): seq<AdminInfo> {
    Copies(ReadRows(RowsOf(rows, userId)))
  }

  /** The map `QueryAllAdmin` builds, one row after the other. */
  function QueryRows(rows: seq<Row>): Admins {
    if rows == [] then map[]
    else
      var before, last := QueryRows(rows[..|rows| - 1]), rows[|rows| - 1];
      before[last.userId := ListOf(before, last.userId) + [ReadRow(last.info)]]
  }

  function InitAdminsSpec(admins: Admins, infos: Admins): Admins {
    admins + map u | u in infos :: Copies(infos[u])
  }
}
