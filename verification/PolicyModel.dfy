/** Values of the device policy store: the rows of its two tables, the three in-memory maps one user's
    manager keeps, and what each storage call and each manager operation does to them. The classes of
    PolicyStore.dfy are proved against these functions; the laws of the store are in StoreLaws.dfy. */
module PolicyModel {

  datatype Option<+T> = None | Some(value: T)

  /** How one storage call ends: no storage instance, a failed call, or a completed one. */
  datatype Outcome = Unavailable | Failed | Done

  datatype ErrCode =
    | ErrOk
    | ErrGetStorageRdbFailed
    | ErrPolicyNotFound
    | ErrPolicyNotFind
    | ErrPolicySetFailed
    | ErrPolicyDelFailed
    | ErrPolicyReplaceFailed

  datatype AdminRow = AdminRow(userId: int, admin: string, policy: string, value: string)

  datatype CombinedRow = CombinedRow(userId: int, policy: string, value: string)

  /** No uniqueness constraint: the tables only have an autoincrement key. */
  datatype Tables = Tables(adminRows: seq<AdminRow>, combinedRows: seq<CombinedRow>)

  type Items = map<string, string>
  type NestedItems = map<string, Items>

  /** `admins` maps admin to policy to value, `index` maps policy to admin to value. */
  datatype Cache = Cache(combined: Items, admins: NestedItems, index: NestedItems)

  const EMPTY_CACHE := Cache(map[], map[], map[])

  datatype StoreResult = StoreResult(cache: Cache, tables: Tables, err: ErrCode)

  // ----- Maps -----

  function Find(m: Items, key: string): Option<string> {
    if key in m then Some(m[key]) else None
  }

  function Lookup(m: NestedItems, outer: string, inner: string): Option<string> {
    if outer in m && inner in m[outer] then Some(m[outer][inner]) else None
  }

  function Put(m: NestedItems, outer: string, inner: string, value: string): NestedItems {
    m[outer := (if outer in m then m[outer] else map[])[inner := value]]
  }

  /** Erases an entry, and its outer key when nothing is left under it. */
  function Drop(m: NestedItems, outer: string, inner: string): NestedItems {
    if outer !in m then m
    else
      var rest := m[outer] - {inner};
      if rest == map[] then m - {outer} else m[outer := rest]
  }

  predicate NoEmptyInner(m: NestedItems) {
    forall k :: k in m ==> m[k] != map[]
  }

  ghost predicate SameEntries(m: NestedItems, n: NestedItems) {
    forall k, l :: Lookup(m, k, l) == Lookup(n, k, l)
  }

  /** `index` is `m` with its two levels exchanged. */
  ghost predicate Transposed(m: NestedItems, index: NestedItems) {
    && NoEmptyInner(index)
    && forall k, l :: Lookup(m, k, l) == Lookup(index, l, k)
  }

  lemma LookupPut(m: NestedItems, outer: string, inner: string, value: string, k: string, l: string)
    ensures Lookup(Put(m, outer, inner, value), k, l) == if k == outer && l == inner then Some(value)
                                                         else Lookup(m, k, l)
  {
  }

  lemma LookupDrop(m: NestedItems, outer: string, inner: string, k: string, l: string)
    ensures Lookup(Drop(m, outer, inner), k, l) == if k == outer && l == inner then None else Lookup(m, k, l)
  {
    if outer in m {
      var rest := m[outer] - {inner};
      assert l in m[outer] && l != inner ==> l in rest;
    }
  }

  lemma PutDropKeepFilled(m: NestedItems, outer: string, inner: string, value: string)
    requires NoEmptyInner(m)
    ensures NoEmptyInner(Put(m, outer, inner, value)) && NoEmptyInner(Drop(m, outer, inner))
  {
    assert inner in Put(m, outer, inner, value)[outer];
  }

  /** Without empty inner maps the entries determine the map. */
  lemma EntriesDetermine(m: NestedItems, n: NestedItems)
    requires NoEmptyInner(m) && NoEmptyInner(n) && SameEntries(m, n)
    ensures m == n
  {
    forall k | k in m ensures k in n && m[k] == n[k] { EntryUnder(m, n, k); }
    forall k | k in n ensures k in m && m[k] == n[k] { EntryUnder(n, m, k); }
  }

  lemma EntryUnder(m: NestedItems, n: NestedItems, k: string)
    requires NoEmptyInner(m) && SameEntries(m, n) && k in m
    ensures k in n && m[k] == n[k]
  {
    var some :| some in m[k];
    assert Lookup(m, k, some) == Lookup(n, k, some);
    forall l ensures (l in m[k] <==> l in n[k]) && (l in m[k] ==> m[k][l] == n[k][l]) {
      assert Lookup(m, k, l) == Lookup(n, k, l);
    }
  }

  // ----- SQL over the two tables: update and delete hit every matching row -----

  predicate AdminMatch(r: AdminRow, userId: int, admin: string, policy: string) {
    r.userId == userId && r.admin == admin && r.policy == policy
  }

  function InsertAdminRow(rows: seq<AdminRow>, userId: int, admin: string, policy: string,
                          value: string): seq<AdminRow>
  {
    rows + [AdminRow(userId, admin, policy, value)]
  }

  function UpdateAdminRows(rows: seq<AdminRow>, userId: int, admin: string, policy: string,
                           value: string): seq<AdminRow>
  {
    seq(|rows|, i requires 0 <= i < |rows| =>
      if AdminMatch(rows[i], userId, admin, policy) then rows[i].(value := value) else rows[i])
  }

  function DeleteAdminRows(rows: seq<AdminRow>, userId: int, admin: string, policy: string): seq<AdminRow> {
    if rows == [] then []
    else
      var init := DeleteAdminRows(rows[..|rows| - 1], userId, admin, policy);
      var last := rows[|rows| - 1];
      if AdminMatch(last, userId, admin, policy) then init else init + [last]
  }

  function RenameAdminRows(rows: seq<AdminRow>, userId: int, admin: string, newAdmin: string): seq<AdminRow> {
    seq(|rows|, i requires 0 <= i < |rows| =>
      if rows[i].userId == userId && rows[i].admin == admin then rows[i].(admin := newAdmin) else rows[i])
  }

  function SelectAdminRows(rows: seq<AdminRow>, userId: int): seq<AdminRow> {
    if rows == [] then []
    else
      var init := SelectAdminRows(rows[..|rows| - 1], userId);
      var last := rows[|rows| - 1];
      if last.userId == userId then init + [last] else init
  }

  predicate CombinedMatch(r: CombinedRow, userId: int, policy: string) {
    r.userId == userId && r.policy == policy
  }

  function InsertCombinedRow(rows: seq<CombinedRow>, userId: int, policy: string, value: string): seq<CombinedRow> {
    rows + [CombinedRow(userId, policy, value)]
  }

  function UpdateCombinedRows(rows: seq<CombinedRow>, userId: int, policy: string, value: string): seq<CombinedRow> {
    seq(|rows|, i requires 0 <= i < |rows| =>
      if CombinedMatch(rows[i], userId, policy) then rows[i].(value := value) else rows[i])
  }

  function DeleteCombinedRows(rows: seq<CombinedRow>, userId: int, policy: string): seq<CombinedRow> {
    if rows == [] then []
    else
      var init := DeleteCombinedRows(rows[..|rows| - 1], userId, policy);
      var last := rows[|rows| - 1];
      if CombinedMatch(last, userId, policy) then init else init + [last]
  }

  function SelectCombinedRows(rows: seq<CombinedRow>, userId: int): seq<CombinedRow> {
    if rows == [] then []
    else
      var init := SelectCombinedRows(rows[..|rows| - 1], userId);
      var last := rows[|rows| - 1];
      if last.userId == userId then init + [last] else init
  }

  // ----- Cursor loops: `insert` keeps an existing entry -----

  function InsertNew(m: NestedItems, outer: string, inner: string, value: string): NestedItems {
    if Lookup(m, outer, inner).Some? then m else Put(m, outer, inner, value)
  }

  function LoadAdmins(m: NestedItems, rows: seq<AdminRow>): NestedItems {
    if rows == [] then m
    else
      var last := rows[|rows| - 1];
      InsertNew(LoadAdmins(m, rows[..|rows| - 1]), last.admin, last.policy, last.value)
  }

  function LoadIndex(m: NestedItems, rows: seq<AdminRow>): NestedItems {
    if rows == [] then m
    else
      var last := rows[|rows| - 1];
      InsertNew(LoadIndex(m, rows[..|rows| - 1]), last.policy, last.admin, last.value)
  }

  function LoadCombined(m: Items, rows: seq<CombinedRow>): Items {
    if rows == [] then m
    else
      var init := LoadCombined(m, rows[..|rows| - 1]);
      var last := rows[|rows| - 1];
      if last.policy in init then init else init[last.policy := last.value]
  }

  // ----- One user's manager -----

  /** `Init`: the second query is not tried when the first one fails. */
  function InitSpec(c: Cache, t: Tables, userId: int, adminIo: Outcome, combinedIo: Outcome): Cache {
    if adminIo != Done then c
    else
      var rows := SelectAdminRows(t.adminRows, userId);
      var loaded := c.(admins := LoadAdmins(c.admins, rows), index := LoadIndex(c.index, rows));
      if combinedIo != Done then loaded
      else loaded.(combined := LoadCombined(c.combined, SelectCombinedRows(t.combinedRows, userId)))
  }

  /** The index is written before the row, and stays written when the row is not. */
  function SetAdminPolicySpec(c: Cache, t: Tables, userId: int, admin: string, policy: string, value: string,
                              io: Outcome): StoreResult
  {
    if io == Unavailable then StoreResult(c, t, ErrGetStorageRdbFailed)
    else
      var indexed := c.(index := Put(c.index, policy, admin, value));
      if io == Failed then StoreResult(indexed, t, ErrPolicySetFailed)
      else
        var rows :=
          if Lookup(c.admins, admin, policy).Some? then UpdateAdminRows(t.adminRows, userId, admin, policy, value)
          else InsertAdminRow(t.adminRows, userId, admin, policy, value);
        StoreResult(indexed.(admins := Put(c.admins, admin, policy, value)), t.(adminRows := rows), ErrOk)
  }

  function DeleteAdminPolicySpec(c: Cache, t: Tables, userId: int, admin: string, policy: string,
                                 io: Outcome): StoreResult
  {
    if io == Unavailable then StoreResult(c, t, ErrGetStorageRdbFailed)
    else if io == Failed then StoreResult(c, t, ErrPolicyDelFailed)
    else
      var erased :=
        if admin !in c.admins then c
        else c.(admins := Drop(c.admins, admin, policy),
                index := if Lookup(c.index, policy, admin).Some? then Drop(c.index, policy, admin) else c.index);
      StoreResult(erased, t.(adminRows := DeleteAdminRows(t.adminRows, userId, admin, policy)), ErrOk)
  }

  function SetCombinedPolicySpec(c: Cache, t: Tables, userId: int, policy: string, value: string,
                                 io: Outcome): StoreResult
  {
    if io == Unavailable then StoreResult(c, t, ErrGetStorageRdbFailed)
    else if io == Failed then StoreResult(c, t, ErrPolicySetFailed)
    else
      var rows :=
        if policy in c.combined then UpdateCombinedRows(t.combinedRows, userId, policy, value)
        else InsertCombinedRow(t.combinedRows, userId, policy, value);
      StoreResult(c.(combined := c.combined[policy := value]), t.(combinedRows := rows), ErrOk)
  }

  function DeleteCombinedPolicySpec(c: Cache, t: Tables, userId: int, policy: string, io: Outcome): StoreResult {
    if io == Unavailable then StoreResult(c, t, ErrGetStorageRdbFailed)
    else if io == Failed then StoreResult(c, t, ErrPolicyDelFailed)
    else StoreResult(c.(combined := c.combined - {policy}),
                     t.(combinedRows := DeleteCombinedRows(t.combinedRows, userId, policy)), ErrOk)
  }

  function WriteCombined(c: Cache, t: Tables, userId: int, policy: string, merged: string, io: Outcome): StoreResult {
    if merged == "" then DeleteCombinedPolicySpec(c, t, userId, policy, io)
    else SetCombinedPolicySpec(c, t, userId, policy, merged, io)
  }

  function WriteAdmin(c: Cache, t: Tables, userId: int, admin: string, policy: string, value: string,
                      io: Outcome): StoreResult
  {
    if value == "" then DeleteAdminPolicySpec(c, t, userId, admin, policy, io)
    else SetAdminPolicySpec(c, t, userId, admin, policy, value, io)
  }

  /** The error of the combined write is lost when an admin name is given. */
  function SetPolicySpec(c: Cache, t: Tables, userId: int, admin: string, policy: string, adminValue: string,
                         merged: string, combinedIo: Outcome, adminIo: Outcome): StoreResult
  {
    if policy == "" then StoreResult(c, t, ErrPolicySetFailed)
    else
      var first := WriteCombined(c, t, userId, policy, merged, combinedIo);
      if admin == "" then first
      else WriteAdmin(first.cache, first.tables, userId, admin, policy, adminValue, adminIo)
  }

  /** One index entry of `ReplacePolicyByAdminName`: the admin's value moves to the new name. */
  function RenameKey(m: Items, admin: string, newAdmin: string): Items {
    if admin in m then (m - {admin})[newAdmin := m[admin]] else m
  }

  function RenameIndex(index: NestedItems, admin: string, newAdmin: string): NestedItems {
    map p | p in index :: RenameKey(index[p], admin, newAdmin)
  }

  function ReplaceSpec(c: Cache, t: Tables, userId: int, admin: string, newAdmin: string, io: Outcome): StoreResult {
    if io == Unavailable then StoreResult(c, t, ErrGetStorageRdbFailed)
    else if io == Failed then StoreResult(c, t, ErrPolicyReplaceFailed)
    else
      var admins := if admin in c.admins then (c.admins - {admin})[newAdmin := c.admins[admin]] else c.admins;
      StoreResult(c.(admins := admins, index := RenameIndex(c.index, admin, newAdmin)),
                  t.(adminRows := RenameAdminRows(t.adminRows, userId, admin, newAdmin)), ErrOk)
  }
}
