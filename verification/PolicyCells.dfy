/** All that belongs to one policy of one user, in the maps and in the tables: what a save does to the policy it names,
    to the others, and when two saves of different policies commute, under every outcome of the row calls. */
module PolicyCells {
  import opened PolicyModel
  import opened StoreLaws
  import opened ManagerModel
  import opened PipelineModel

  /** `holders` is the index entry, `values` the administrators' own values. */
  datatype Cell = Cell(holders: Items, combined: Option<string>, values: Items, adminRows: seq<AdminRow>,
                       combinedRows: seq<CombinedRow>)

  function Column(m: NestedItems, p: string): Items {
    map x | x in m && p in m[x] :: m[x][p]
  }

  function AdminRowsAt(rows: seq<AdminRow>, u: int, p: string): seq<AdminRow> {
    if rows == [] then []
    else
      var init, last := AdminRowsAt(rows[..|rows| - 1], u, p), rows[|rows| - 1];
      if last.userId == u && last.policy == p then init + [last] else init
  }

  function CombinedRowsAt(rows: seq<CombinedRow>, u: int, p: string): seq<CombinedRow> {
    if rows == [] then []
    else
      var init, last := CombinedRowsAt(rows[..|rows| - 1], u, p), rows[|rows| - 1];
      if CombinedMatch(last, u, p) then init + [last] else init
  }

  function CellOf(c: Cache, t: Tables, u: int, p: string): Cell {
    Cell(Holders(c, p), Find(c.combined, p), Column(c.admins, p), AdminRowsAt(t.adminRows, u, p),
         CombinedRowsAt(t.combinedRows, u, p))
  }

  // ----- Rows -----

  lemma AdminRowsAtNext(rows: seq<AdminRow>, r: AdminRow, w: int, q: string)
    ensures AdminRowsAt(rows + [r], w, q) == AdminRowsAt(rows, w, q) + if r.userId == w && r.policy == q
                                                                       then [r] else []
  {
    assert (rows + [r])[..|rows|] == rows;
  }

  lemma AdminInserted(rows: seq<AdminRow>, u: int, a: string, p: string, v: string, w: int, q: string)
    ensures AdminRowsAt(InsertAdminRow(rows, u, a, p, v), w, q) ==
            if w == u && q == p then InsertAdminRow(AdminRowsAt(rows, w, q), u, a, p, v) else AdminRowsAt(rows, w, q)
  {
    AdminRowsAtNext(rows, AdminRow(u, a, p, v), w, q);
  }

  lemma AdminUpdatedNext(rows: seq<AdminRow>, r: AdminRow, u: int, a: string, p: string, v: string)
    ensures UpdateAdminRows(rows + [r], u, a, p, v) ==
            UpdateAdminRows(rows, u, a, p, v) + [if AdminMatch(r, u, a, p) then r.(value := v) else r]
  {
  }

  lemma {:induction false} AdminUpdated(rows: seq<AdminRow>, u: int, a: string, p: string, v: string, w: int, q: string)
    ensures AdminRowsAt(UpdateAdminRows(rows, u, a, p, v), w, q) ==
            if w == u && q == p then UpdateAdminRows(AdminRowsAt(rows, w, q), u, a, p, v) else AdminRowsAt(rows, w, q)
  {
    if rows != [] {
      var init, last := rows[..|rows| - 1], rows[|rows| - 1];
      var last' := if AdminMatch(last, u, a, p) then last.(value := v) else last;
      assert rows == init + [last];
      AdminUpdated(init, u, a, p, v, w, q);
      AdminUpdatedNext(init, last, u, a, p, v);
      AdminUpdatedNext(AdminRowsAt(init, w, q), last, u, a, p, v);
      AdminRowsAtNext(UpdateAdminRows(init, u, a, p, v), last', w, q);
    }
  }

  lemma AdminDeletedNext(rows: seq<AdminRow>, r: AdminRow, u: int, a: string, p: string)
    ensures DeleteAdminRows(rows + [r], u, a, p) == DeleteAdminRows(rows, u, a, p) + if AdminMatch(r, u, a, p) then []
                                                                                     else [r]
  {
    assert (rows + [r])[..|rows|] == rows;
  }

  lemma {:induction false} AdminDeleted(rows: seq<AdminRow>, u: int, a: string, p: string, w: int, q: string)
    ensures AdminRowsAt(DeleteAdminRows(rows, u, a, p), w, q) ==
            if w == u && q == p then DeleteAdminRows(AdminRowsAt(rows, w, q), u, a, p) else AdminRowsAt(rows, w, q)
  {
    if rows != [] {
      var init, last := rows[..|rows| - 1], rows[|rows| - 1];
      assert rows == init + [last];
      AdminDeleted(init, u, a, p, w, q);
      AdminDeletedNext(init, last, u, a, p);
      AdminDeletedNext(AdminRowsAt(init, w, q), last, u, a, p);
      AdminRowsAtNext(DeleteAdminRows(init, u, a, p), last, w, q);
    }
  }

  lemma CombinedRowsAtNext(rows: seq<CombinedRow>, r: CombinedRow, w: int, q: string)
    ensures CombinedRowsAt(rows + [r], w, q) == CombinedRowsAt(rows, w, q) + if CombinedMatch(r, w, q) then [r] else []
  {
    assert (rows + [r])[..|rows|] == rows;
  }

  lemma CombinedInserted(rows: seq<CombinedRow>, u: int, p: string, v: string, w: int, q: string)
    ensures CombinedRowsAt(InsertCombinedRow(rows, u, p, v), w, q) ==
            if w == u && q == p then InsertCombinedRow(CombinedRowsAt(rows, w, q), u, p, v)
            else CombinedRowsAt(rows, w, q)
  {
    CombinedRowsAtNext(rows, CombinedRow(u, p, v), w, q);
  }

  lemma CombinedUpdatedNext(rows: seq<CombinedRow>, r: CombinedRow, u: int, p: string, v: string)
    ensures UpdateCombinedRows(rows + [r], u, p, v) ==
            UpdateCombinedRows(rows, u, p, v) + [if CombinedMatch(r, u, p) then r.(value := v) else r]
  {
  }

  lemma {:induction false} CombinedUpdated(rows: seq<CombinedRow>, u: int, p: string, v: string, w: int, q: string)
    ensures CombinedRowsAt(UpdateCombinedRows(rows, u, p, v), w, q) ==
            if w == u && q == p then UpdateCombinedRows(CombinedRowsAt(rows, w, q), u, p, v)
            else CombinedRowsAt(rows, w, q)
  {
    if rows != [] {
      var init, last := rows[..|rows| - 1], rows[|rows| - 1];
      var last' := if CombinedMatch(last, u, p) then last.(value := v) else last;
      assert rows == init + [last];
      CombinedUpdated(init, u, p, v, w, q);
      CombinedUpdatedNext(init, last, u, p, v);
      CombinedUpdatedNext(CombinedRowsAt(init, w, q), last, u, p, v);
      CombinedRowsAtNext(UpdateCombinedRows(init, u, p, v), last', w, q);
    }
  }

  lemma CombinedDeletedNext(rows: seq<CombinedRow>, r: CombinedRow, u: int, p: string)
    ensures DeleteCombinedRows(rows + [r], u, p) == DeleteCombinedRows(rows, u, p) + if CombinedMatch(r, u, p) then []
                                                                                     else [r]
  {
    assert (rows + [r])[..|rows|] == rows;
  }

  lemma {:induction false} CombinedDeleted(rows: seq<CombinedRow>, u: int, p: string, w: int, q: string)
    ensures CombinedRowsAt(DeleteCombinedRows(rows, u, p), w, q) ==
            if w == u && q == p then DeleteCombinedRows(CombinedRowsAt(rows, w, q), u, p)
            else CombinedRowsAt(rows, w, q)
  {
    if rows != [] {
      var init, last := rows[..|rows| - 1], rows[|rows| - 1];
      assert rows == init + [last];
      CombinedDeleted(init, u, p, w, q);
      CombinedDeletedNext(init, last, u, p);
      CombinedDeletedNext(CombinedRowsAt(init, w, q), last, u, p);
      CombinedRowsAtNext(DeleteCombinedRows(init, u, p), last, w, q);
    }
  }

  /** The rows of all cells are all the rows. */
  lemma {:induction false} RowsFromCells(rows: seq<AdminRow>, r: AdminRow)
    ensures multiset(rows)[r] == multiset(AdminRowsAt(rows, r.userId, r.policy))[r]
  {
    if rows != [] {
      RowsFromCells(rows[..|rows| - 1], r);
      assert rows == rows[..|rows| - 1] + [rows[|rows| - 1]];
    }
  }

  lemma {:induction false} CombinedFromCells(rows: seq<CombinedRow>, r: CombinedRow)
    ensures multiset(rows)[r] == multiset(CombinedRowsAt(rows, r.userId, r.policy))[r]
  {
    if rows != [] {
      CombinedFromCells(rows[..|rows| - 1], r);
      assert rows == rows[..|rows| - 1] + [rows[|rows| - 1]];
    }
  }

  // ----- A save leaves the cells of other policies alone -----

  lemma ColumnAfterPut(m: NestedItems, a: string, p: string, v: string, q: string)
    ensures Column(Put(m, a, p, v), q) == if q == p then Column(m, p)[a := v] else Column(m, q)
  {
  }

  lemma ColumnAfterDrop(m: NestedItems, a: string, p: string, q: string)
    ensures Column(Drop(m, a, p), q) == if q == p then Column(m, p) - {a} else Column(m, q)
  {
    if a in m {
      var rest := m[a] - {p};
      assert forall k :: k in rest <==> k in m[a] && k != p;
    }
  }

  lemma HoldersAfterPutDrop(m: NestedItems, p: string, a: string, v: string, q: string)
    ensures Under(Put(m, p, a, v), q) == if q == p then Under(m, p)[a := v] else Under(m, q)
    ensures Under(Drop(m, p, a), q) == if q == p then Under(m, p) - {a} else Under(m, q)
  {
    UnderPutDrop(m, p, a, v, q);
  }

  lemma CombinedCellKept(c: Cache, t: Tables, u: int, p: string, merged: string, io: Outcome, w: int, q: string)
    requires w != u || q != p
    ensures var r := WriteCombined(c, t, u, p, merged, io);
            && r.cache.admins == c.admins && r.cache.index == c.index && r.tables.adminRows == t.adminRows
            && (q != p ==> Find(r.cache.combined, q) == Find(c.combined, q))
            && CombinedRowsAt(r.tables.combinedRows, w, q) == CombinedRowsAt(t.combinedRows, w, q)
  {
    if merged == "" {
      CombinedDeleted(t.combinedRows, u, p, w, q);
    } else {
      CombinedInserted(t.combinedRows, u, p, merged, w, q);
      CombinedUpdated(t.combinedRows, u, p, merged, w, q);
    }
  }

  ghost predicate AdminPartKept(c: Cache, t: Tables, r: StoreResult, p: string, w: int, q: string) {
    && r.cache.combined == c.combined && r.tables.combinedRows == t.combinedRows
    && (q != p ==> Column(r.cache.admins, q) == Column(c.admins, q) && Holders(r.cache, q) == Holders(c, q))
    && AdminRowsAt(r.tables.adminRows, w, q) == AdminRowsAt(t.adminRows, w, q)
  }

  lemma SetCellKept(c: Cache, t: Tables, u: int, a: string, p: string, v: string, io: Outcome, w: int, q: string)
    requires w != u || q != p
    ensures AdminPartKept(c, t, SetAdminPolicySpec(c, t, u, a, p, v, io), p, w, q)
  {
    AdminInserted(t.adminRows, u, a, p, v, w, q);
    AdminUpdated(t.adminRows, u, a, p, v, w, q);
    ColumnAfterPut(c.admins, a, p, v, q);
    HoldersAfterPutDrop(c.index, p, a, v, q);
  }

  lemma DeleteCellKept(c: Cache, t: Tables, u: int, a: string, p: string, io: Outcome, w: int, q: string)
    requires w != u || q != p
    ensures AdminPartKept(c, t, DeleteAdminPolicySpec(c, t, u, a, p, io), p, w, q)
  {
    AdminDeleted(t.adminRows, u, a, p, w, q);
    ColumnAfterDrop(c.admins, a, p, q);
    HoldersAfterPutDrop(c.index, p, a, "", q);
  }

  lemma AdminCellKept(c: Cache, t: Tables, u: int, a: string, p: string, v: string, io: Outcome, w: int, q: string)
    requires w != u || q != p
    ensures AdminPartKept(c, t, WriteAdmin(c, t, u, a, p, v, io), p, w, q)
  {
    if v == "" { DeleteCellKept(c, t, u, a, p, io, w, q); } else { SetCellKept(c, t, u, a, p, v, io, w, q); }
  }

  /** Under every pair of outcomes and from any maps, a save of one policy leaves everything of every other alone. */
  lemma OtherPolicyKept(c: Cache, t: Tables, u: int, a: string, p: string, v: string, merged: string,
                        combinedIo: Outcome, adminIo: Outcome, q: string)
    requires q != p
    ensures var r := SetPolicySpec(c, t, u, a, p, v, merged, combinedIo, adminIo);
            CellOf(r.cache, r.tables, u, q) == CellOf(c, t, u, q)
  {
    var first := WriteCombined(c, t, u, p, merged, combinedIo);
    CombinedCellKept(c, t, u, p, merged, combinedIo, u, q);
    AdminCellKept(first.cache, first.tables, u, a, p, v, adminIo, u, q);
  }

  lemma OtherUserRowsKept(c: Cache, t: Tables, u: int, a: string, p: string, v: string, merged: string,
                          combinedIo: Outcome, adminIo: Outcome, w: int, q: string)
    requires w != u
    ensures var r := SetPolicySpec(c, t, u, a, p, v, merged, combinedIo, adminIo).tables;
            && AdminRowsAt(r.adminRows, w, q) == AdminRowsAt(t.adminRows, w, q)
            && CombinedRowsAt(r.combinedRows, w, q) == CombinedRowsAt(t.combinedRows, w, q)
  {
    var first := WriteCombined(c, t, u, p, merged, combinedIo);
    CombinedCellKept(c, t, u, p, merged, combinedIo, w, q);
    AdminCellKept(first.cache, first.tables, u, a, p, v, adminIo, w, q);
  }

  // ----- The cell a save names -----

  /** A delete that leaves the index entry of an administrator who owns nothing. */
  predicate LeavesStale(c: Cache, a: string, p: string, v: string, io: Outcome) {
    a != "" && v == "" && io == Done && a !in c.admins && Lookup(c.index, p, a).Some?
  }

  function NewCombined(cell: Cell, u: int, p: string, merged: string, io: Outcome): Cell {
    if io != Done then cell
    else if merged == "" then
      cell.(combined := None, combinedRows := DeleteCombinedRows(cell.combinedRows, u, p))
    else
      cell.(combined := Some(merged),
            combinedRows := if cell.combined.Some? then UpdateCombinedRows(cell.combinedRows, u, p, merged)
                            else InsertCombinedRow(cell.combinedRows, u, p, merged))
  }

  function NewCell(cell: Cell, u: int, a: string, p: string, v: string, merged: string, combinedIo: Outcome,
                   adminIo: Outcome): Cell
  {
    var first := NewCombined(cell, u, p, merged, combinedIo);
    if a == "" || adminIo == Unavailable || (adminIo == Failed && v == "") then first
    else if v == "" then
      first.(holders := cell.holders - {a}, values := cell.values - {a},
             adminRows := DeleteAdminRows(cell.adminRows, u, a, p))
    else if adminIo == Failed then first.(holders := cell.holders[a := v])
    else
      first.(holders := cell.holders[a := v], values := cell.values[a := v],
             adminRows := if a in cell.values then UpdateAdminRows(cell.adminRows, u, a, p, v)
                          else InsertAdminRow(cell.adminRows, u, a, p, v))
  }

  lemma CombinedCellAfter(c: Cache, t: Tables, u: int, p: string, merged: string, io: Outcome)
    ensures var r := WriteCombined(c, t, u, p, merged, io);
            && r.cache.admins == c.admins && r.cache.index == c.index && r.tables.adminRows == t.adminRows
            && CellOf(r.cache, r.tables, u, p) == NewCombined(CellOf(c, t, u, p), u, p, merged, io)
  {
    if merged == "" {
      CombinedDeleted(t.combinedRows, u, p, u, p);
    } else {
      CombinedInserted(t.combinedRows, u, p, merged, u, p);
      CombinedUpdated(t.combinedRows, u, p, merged, u, p);
    }
  }

  /** What a save makes of the cell it names depends on that cell only, unless it leaves a stale index entry. */
  lemma OwnCellAfter(c: Cache, t: Tables, u: int, a: string, p: string, v: string, merged: string, combinedIo: Outcome,
                     adminIo: Outcome)
    requires p != "" && !LeavesStale(c, a, p, v, adminIo)
    ensures var r := SetPolicySpec(c, t, u, a, p, v, merged, combinedIo, adminIo);
            CellOf(r.cache, r.tables, u, p) == NewCell(CellOf(c, t, u, p), u, a, p, v, merged, combinedIo, adminIo)
  {
    var first := WriteCombined(c, t, u, p, merged, combinedIo);
    CombinedCellAfter(c, t, u, p, merged, combinedIo);
    if a != "" {
      if v == "" { DeleteOwnCell(first.cache, first.tables, u, a, p, adminIo); }
      else { SetOwnCell(first.cache, first.tables, u, a, p, v, adminIo); }
    }
  }

  lemma SetOwnCell(c: Cache, t: Tables, u: int, a: string, p: string, v: string, io: Outcome)
    requires v != "" && a != ""
    ensures var r := SetAdminPolicySpec(c, t, u, a, p, v, io);
            CellOf(r.cache, r.tables, u, p) == NewCell(CellOf(c, t, u, p), u, a, p, v, "", Failed, io)
  {
    AdminInserted(t.adminRows, u, a, p, v, u, p);
    AdminUpdated(t.adminRows, u, a, p, v, u, p);
    ColumnAfterPut(c.admins, a, p, v, p);
    HoldersAfterPutDrop(c.index, p, a, v, p);
    assert a in Column(c.admins, p) <==> Lookup(c.admins, a, p).Some?;
  }

  lemma DeleteOwnCell(c: Cache, t: Tables, u: int, a: string, p: string, io: Outcome)
    requires a != "" && !LeavesStale(c, a, p, "", io)
    ensures var r := DeleteAdminPolicySpec(c, t, u, a, p, io);
            CellOf(r.cache, r.tables, u, p) == NewCell(CellOf(c, t, u, p), u, a, p, "", "", Failed, io)
  {
    AdminDeleted(t.adminRows, u, a, p, u, p);
    ColumnAfterDrop(c.admins, a, p, p);
    HoldersAfterPutDrop(c.index, p, a, "", p);
    assert a !in c.admins ==> Column(c.admins, p) - {a} == Column(c.admins, p);
    assert Lookup(c.index, p, a).None? ==> Holders(c, p) - {a} == Holders(c, p);
  }

  // ----- Exact indexes -----

  ghost predicate GoodCache(c: Cache) {
    NoEmptyInner(c.admins) && Transposed(c.admins, c.index)
  }

  /** The only save that spoils the index is a failed write of a value. */
  lemma GoodAfter(c: Cache, t: Tables, u: int, a: string, p: string, v: string, merged: string, combinedIo: Outcome,
                  adminIo: Outcome)
    requires GoodCache(c) && !(a != "" && v != "" && adminIo == Failed)
    ensures GoodCache(SetPolicySpec(c, t, u, a, p, v, merged, combinedIo, adminIo).cache)
    ensures !LeavesStale(c, a, p, v, adminIo)
  {
    assert Lookup(c.admins, a, p) == Lookup(c.index, p, a);
    var first := WriteCombined(c, t, u, p, merged, combinedIo);
    if p != "" && a != "" && adminIo == Done { GoodAfterWrite(first.cache, first.tables, u, a, p, v); }
  }

  lemma GoodAfterWrite(c: Cache, t: Tables, u: int, a: string, p: string, v: string)
    requires GoodCache(c)
    ensures GoodCache(WriteAdmin(c, t, u, a, p, v, Done).cache)
  {
    assert IndexAgreesOff(c, {});
    PutDropKeepFilled(c.admins, a, p, v);
    if v == "" { StepIndexDelete(c, t, u, {}, a, p); } else { StepIndexSet(c, t, u, {}, a, p, v, Done); }
  }

  // ----- When two saves commute -----

  function Save(c: Cache, t: Tables, u: int, op: SetOp): StoreResult {
    SetPolicySpec(c, t, u, op.admin, op.policy, op.value, op.merged, op.combinedIo, op.adminIo)
  }

  function SaveBoth(c: Cache, t: Tables, u: int, x: SetOp, y: SetOp): StoreResult {
    var first := Save(c, t, u, x);
    Save(first.cache, first.tables, u, y)
  }

  /** `x` deletes an entry that only the index has, and `y` decides whether its administrator owns anything. */
  predicate Clashes(c: Cache, x: SetOp, y: SetOp) {
    && x.admin == y.admin && x.admin != "" && x.policy != "" && y.policy != ""
    && x.value == "" && x.adminIo == Done
    && Lookup(c.index, x.policy, x.admin).Some? && Lookup(c.admins, x.admin, x.policy).None?
    && y.adminIo == Done
    && if y.value != "" then x.admin !in c.admins
       else x.admin in c.admins && c.admins[x.admin].Keys == {y.policy}
  }

  function AdminWrite(c: Cache, op: SetOp): Cache {
    if op.admin == "" || op.policy == "" then c
    else WriteAdmin(c, Tables([], []), 0, op.admin, op.policy, op.value, op.adminIo).cache
  }

  /** The entries after one write, with whether the administrator owns anything as it stands. */
  lemma WriteEntries(c: Cache, op: SetOp, a: string, p: string)
    requires NoEmptyInner(c.admins) && NoEmptyInner(c.index)
    ensures var r := AdminWrite(c, op);
            var here := a == op.admin && p == op.policy && a != "" && p != "";
            && NoEmptyInner(r.admins) && NoEmptyInner(r.index) && r.combined == c.combined
            && Lookup(r.admins, a, p) ==
               (if here && op.adminIo == Done then Present(op.value) else Lookup(c.admins, a, p))
            && Lookup(r.index, p, a) ==
               (if here && op.value != "" && op.adminIo != Unavailable then Some(op.value)
                else if here && op.value == "" && op.adminIo == Done && a in c.admins then None
                else Lookup(c.index, p, a))
  {
    PutDropKeepFilled(c.admins, op.admin, op.policy, op.value);
    PutDropKeepFilled(c.index, op.policy, op.admin, op.value);
    LookupPut(c.admins, op.admin, op.policy, op.value, a, p);
    LookupDrop(c.admins, op.admin, op.policy, a, p);
    LookupPut(c.index, op.policy, op.admin, op.value, p, a);
    LookupDrop(c.index, op.policy, op.admin, p, a);
  }

  /** Who owns anything after one write. */
  lemma WriteOwners(c: Cache, op: SetOp, a: string)
    requires NoEmptyInner(c.admins) && NoEmptyInner(c.index)
    ensures var r := AdminWrite(c, op);
            var here := a == op.admin && a != "" && op.policy != "" && op.adminIo == Done;
            a in r.admins <==>
            if here && op.value != "" then true
            else if here then a in c.admins && c.admins[a].Keys != {op.policy}
            else a in c.admins
  {
    if a == op.admin && a in c.admins {
      var rest := c.admins[a] - {op.policy};
      assert rest.Keys == c.admins[a].Keys - {op.policy};
      assert c.admins[a] != map[];
      if rest == map[] { assert c.admins[a].Keys - {op.policy} == {}; }
      if c.admins[a].Keys == {op.policy} { assert rest.Keys == {}; }
    }
  }

  /** The one entry of the index that the order of two writes can change. */
  lemma ClashAt(c: Cache, x: SetOp, y: SetOp)
    requires NoEmptyInner(c.admins) && NoEmptyInner(c.index) && x.policy != y.policy
    requires x.admin != "" && x.policy != ""
    ensures var xy, yx := AdminWrite(AdminWrite(c, x), y), AdminWrite(AdminWrite(c, y), x);
            Lookup(xy.index, x.policy, x.admin) == Lookup(yx.index, x.policy, x.admin) <==> !Clashes(c, x, y)
  {
    WriteEntries(c, x, x.admin, x.policy);
    WriteEntries(c, y, x.admin, x.policy);
    WriteEntries(AdminWrite(c, x), y, x.admin, x.policy);
    WriteEntries(AdminWrite(c, y), x, x.admin, x.policy);
    WriteOwners(c, y, x.admin);
    if Lookup(c.admins, x.admin, x.policy).Some? { assert x.policy in c.admins[x.admin].Keys; }
  }

  lemma SameElsewhere(c: Cache, x: SetOp, y: SetOp, a: string, p: string)
    requires NoEmptyInner(c.admins) && NoEmptyInner(c.index) && x.policy != y.policy
    ensures var xy, yx := AdminWrite(AdminWrite(c, x), y), AdminWrite(AdminWrite(c, y), x);
            && Lookup(xy.admins, a, p) == Lookup(yx.admins, a, p)
            && NoEmptyInner(xy.admins) && NoEmptyInner(yx.admins) && NoEmptyInner(xy.index) && NoEmptyInner(yx.index)
            && (!(a == x.admin && p == x.policy) && !(a == y.admin && p == y.policy) ==>
                  Lookup(xy.index, p, a) == Lookup(yx.index, p, a))
  {
    WriteEntries(c, x, a, p);
    WriteEntries(c, y, a, p);
    WriteEntries(AdminWrite(c, x), y, a, p);
    WriteEntries(AdminWrite(c, y), x, a, p);
  }

  lemma NoClashSame(c: Cache, x: SetOp, y: SetOp)
    requires NoEmptyInner(c.admins) && NoEmptyInner(c.index) && x.policy != y.policy
    requires x.admin != "" && y.admin != "" && x.policy != "" && y.policy != ""
    requires !Clashes(c, x, y) && !Clashes(c, y, x)
    ensures AdminWrite(AdminWrite(c, x), y).index == AdminWrite(AdminWrite(c, y), x).index
  {
    var xy, yx := AdminWrite(AdminWrite(c, x), y).index, AdminWrite(AdminWrite(c, y), x).index;
    ClashAt(c, x, y);
    ClashAt(c, y, x);
    SameElsewhere(c, x, y, "", "");
    forall p, a ensures Lookup(xy, p, a) == Lookup(yx, p, a) { SameElsewhere(c, x, y, a, p); }
    EntriesDetermine(xy, yx);
  }

  lemma SameAdmins(c: Cache, x: SetOp, y: SetOp)
    requires NoEmptyInner(c.admins) && NoEmptyInner(c.index) && x.policy != y.policy
    ensures var xy, yx := AdminWrite(AdminWrite(c, x), y), AdminWrite(AdminWrite(c, y), x);
            xy.admins == yx.admins
  {
    var xy, yx := AdminWrite(AdminWrite(c, x), y).admins, AdminWrite(AdminWrite(c, y), x).admins;
    SameElsewhere(c, x, y, "", "");
    forall a, p ensures Lookup(xy, a, p) == Lookup(yx, a, p) { SameElsewhere(c, x, y, a, p); }
    EntriesDetermine(xy, yx);
  }

  ghost predicate SameMaps(c: Cache, d: Cache) {
    c.admins == d.admins && c.index == d.index
  }

  lemma WritesCommuteIff(c: Cache, x: SetOp, y: SetOp)
    requires NoEmptyInner(c.admins) && NoEmptyInner(c.index) && x.policy != y.policy
    ensures SameMaps(AdminWrite(AdminWrite(c, x), y), AdminWrite(AdminWrite(c, y), x)) <==>
            !Clashes(c, x, y) && !Clashes(c, y, x)
  {
    SameAdmins(c, x, y);
    if Clashes(c, x, y) {
      ClashAt(c, x, y);
    } else if Clashes(c, y, x) {
      ClashAt(c, y, x);
    } else if x.admin != "" && y.admin != "" && x.policy != "" && y.policy != "" {
      NoClashSame(c, x, y);
    }
  }

  /** The administrators' part of a save does not depend on the combined values or the tables. */
  lemma WriteIsFree(c: Cache, d: Cache, t: Tables, u: int, op: SetOp)
    requires c.admins == d.admins && c.index == d.index && op.admin != "" && op.policy != ""
    ensures var r := WriteAdmin(c, t, u, op.admin, op.policy, op.value, op.adminIo).cache;
            r.admins == AdminWrite(d, op).admins && r.index == AdminWrite(d, op).index && r.combined == c.combined
  {
    if op.value == "" {
      assert WriteAdmin(c, t, u, op.admin, op.policy, op.value, op.adminIo) ==
             DeleteAdminPolicySpec(c, t, u, op.admin, op.policy, op.adminIo);
    }
  }

  function CombinedAfter(m: Items, op: SetOp): Items {
    if op.policy == "" || op.combinedIo != Done then m
    else if op.merged == "" then m - {op.policy}
    else m[op.policy := op.merged]
  }

  lemma SaveParts(c: Cache, t: Tables, u: int, op: SetOp)
    ensures var r := Save(c, t, u, op).cache;
            && r.admins == AdminWrite(c, op).admins && r.index == AdminWrite(c, op).index
            && r.combined == CombinedAfter(c.combined, op)
  {
    var first := WriteCombined(c, t, u, op.policy, op.merged, op.combinedIo);
    assert first.cache.admins == c.admins && first.cache.index == c.index;
    if op.admin != "" && op.policy != "" { WriteIsFree(first.cache, c, first.tables, u, op); }
  }

  lemma AdminWriteSame(c: Cache, d: Cache, op: SetOp)
    requires c.admins == d.admins && c.index == d.index
    ensures AdminWrite(c, op).admins == AdminWrite(d, op).admins && AdminWrite(c, op).index == AdminWrite(d, op).index
  {
    if op.admin != "" && op.policy != "" { WriteIsFree(c, d, Tables([], []), 0, op); }
  }

  lemma BothParts(c: Cache, t: Tables, u: int, x: SetOp, y: SetOp)
    ensures var r := SaveBoth(c, t, u, x, y).cache;
            && SameMaps(r, AdminWrite(AdminWrite(c, x), y))
            && r.combined == CombinedAfter(CombinedAfter(c.combined, x), y)
  {
    var first := Save(c, t, u, x);
    SaveParts(c, t, u, x);
    SaveParts(first.cache, first.tables, u, y);
    AdminWriteSame(first.cache, AdminWrite(c, x), y);
  }

  lemma CombinedCommute(m: Items, x: SetOp, y: SetOp)
    requires x.policy != y.policy
    ensures CombinedAfter(CombinedAfter(m, x), y) == CombinedAfter(CombinedAfter(m, y), x)
  {
  }

  lemma SameCacheIff(r: Cache, s: Cache, w: Cache, v: Cache)
    requires SameMaps(r, w) && SameMaps(s, v) && r.combined == s.combined
    ensures r == s <==> SameMaps(w, v)
  {
  }

  /** Two saves of different policies give the same maps in both orders if and only if neither clashes with the
      other. */
  lemma SavesCommuteIff(c: Cache, t: Tables, u: int, x: SetOp, y: SetOp)
    requires NoEmptyInner(c.admins) && NoEmptyInner(c.index) && x.policy != y.policy
    ensures SaveBoth(c, t, u, x, y).cache == SaveBoth(c, t, u, y, x).cache <==>
            !Clashes(c, x, y) && !Clashes(c, y, x)
  {
    BothParts(c, t, u, x, y);
    BothParts(c, t, u, y, x);
    CombinedCommute(c.combined, x, y);
    SameCacheIff(SaveBoth(c, t, u, x, y).cache, SaveBoth(c, t, u, y, x).cache, AdminWrite(AdminWrite(c, x), y),
                 AdminWrite(AdminWrite(c, y), x));
    WritesCommuteIff(c, x, y);
  }
}
