/** Laws of one user's policy store over any run, with any storage call failing. */
module StoreLaws {
  import opened PolicyModel

  // ----- Tables -----

  ghost predicate UniqueAdminRows(rows: seq<AdminRow>, userId: int) {
    forall i, j :: 0 <= i < j < |rows| && rows[i].userId == userId ==>
      !AdminMatch(rows[j], userId, rows[i].admin, rows[i].policy)
  }

  ghost predicate UniqueCombinedRows(rows: seq<CombinedRow>, userId: int) {
    forall i, j :: 0 <= i < j < |rows| && rows[i].userId == userId ==> !CombinedMatch(rows[j], userId, rows[i].policy)
  }

  /** The maps `admins` and `combined` are the user's rows: one entry per row, one row per entry. */
  ghost predicate Mirrors(c: Cache, t: Tables, userId: int) {
    MirrorsAdmins(c, t, userId) && MirrorsCombined(c, t, userId)
  }

  ghost predicate MirrorsAdmins(c: Cache, t: Tables, userId: int) {
    && NoEmptyInner(c.admins)
    && UniqueAdminRows(t.adminRows, userId)
    && forall a, p, v :: Lookup(c.admins, a, p) == Some(v) <==> AdminRow(userId, a, p, v) in t.adminRows
  }

  ghost predicate MirrorsCombined(c: Cache, t: Tables, userId: int) {
    && UniqueCombinedRows(t.combinedRows, userId)
    && forall p, v :: Find(c.combined, p) == Some(v) <==> CombinedRow(userId, p, v) in t.combinedRows
  }

  lemma {:induction false} DeleteAdminRowsMember(rows: seq<AdminRow>, userId: int, a: string, p: string, r: AdminRow)
    ensures r in DeleteAdminRows(rows, userId, a, p) <==> r in rows && !AdminMatch(r, userId, a, p)
  {
    if rows != [] {
      DeleteAdminRowsMember(rows[..|rows| - 1], userId, a, p, r);
      assert rows == rows[..|rows| - 1] + [rows[|rows| - 1]];
    }
  }

  lemma {:induction false} DeleteAdminRowsUnique(rows: seq<AdminRow>, userId: int, a: string, p: string, u: int)
    requires UniqueAdminRows(rows, u)
    ensures UniqueAdminRows(DeleteAdminRows(rows, userId, a, p), u)
  {
    if rows != [] {
      var init, last := rows[..|rows| - 1], rows[|rows| - 1];
      DeleteAdminRowsUnique(init, userId, a, p, u);
      var kept := DeleteAdminRows(init, userId, a, p);
      forall i | 0 <= i < |kept| && kept[i].userId == u
        ensures !AdminMatch(last, u, kept[i].admin, kept[i].policy)
      {
        DeleteAdminRowsMember(init, userId, a, p, kept[i]);
        assert kept[i] in init;
      }
    }
  }

  lemma {:induction false} DeleteCombinedRowsMember(rows: seq<CombinedRow>, userId: int, p: string, r: CombinedRow)
    ensures r in DeleteCombinedRows(rows, userId, p) <==> r in rows && !CombinedMatch(r, userId, p)
  {
    if rows != [] {
      DeleteCombinedRowsMember(rows[..|rows| - 1], userId, p, r);
      assert rows == rows[..|rows| - 1] + [rows[|rows| - 1]];
    }
  }

  lemma {:induction false} DeleteCombinedRowsUnique(rows: seq<CombinedRow>, userId: int, p: string, u: int)
    requires UniqueCombinedRows(rows, u)
    ensures UniqueCombinedRows(DeleteCombinedRows(rows, userId, p), u)
  {
    if rows != [] {
      var init, last := rows[..|rows| - 1], rows[|rows| - 1];
      DeleteCombinedRowsUnique(init, userId, p, u);
      var kept := DeleteCombinedRows(init, userId, p);
      forall i | 0 <= i < |kept| && kept[i].userId == u
        ensures !CombinedMatch(last, u, kept[i].policy)
      {
        DeleteCombinedRowsMember(init, userId, p, kept[i]);
        assert kept[i] in init;
      }
    }
  }

  lemma UpdateAdminRowsMember(rows: seq<AdminRow>, userId: int, a: string, p: string, v: string, r: AdminRow)
    ensures r in UpdateAdminRows(rows, userId, a, p, v) <==>
            (r in rows && !AdminMatch(r, userId, a, p)) ||
            (r == AdminRow(userId, a, p, v) && exists was :: AdminRow(userId, a, p, was) in rows)
  {
    var after := UpdateAdminRows(rows, userId, a, p, v);
    if r in after {
      var i :| 0 <= i < |after| && after[i] == r;
      if AdminMatch(rows[i], userId, a, p) { assert AdminRow(userId, a, p, rows[i].value) in rows; }
    }
    if r in rows && !AdminMatch(r, userId, a, p) {
      var i :| 0 <= i < |rows| && rows[i] == r;
      assert after[i] == r;
    }
    if exists was :: AdminRow(userId, a, p, was) in rows {
      var was :| AdminRow(userId, a, p, was) in rows;
      var i :| 0 <= i < |rows| && rows[i] == AdminRow(userId, a, p, was);
      assert after[i] == AdminRow(userId, a, p, v);
    }
  }

  lemma UpdateCombinedRowsMember(rows: seq<CombinedRow>, userId: int, p: string, v: string, r: CombinedRow)
    ensures r in UpdateCombinedRows(rows, userId, p, v) <==>
            (r in rows && !CombinedMatch(r, userId, p)) ||
            (r == CombinedRow(userId, p, v) && exists was :: CombinedRow(userId, p, was) in rows)
  {
    var after := UpdateCombinedRows(rows, userId, p, v);
    if r in after {
      var i :| 0 <= i < |after| && after[i] == r;
      if CombinedMatch(rows[i], userId, p) { assert CombinedRow(userId, p, rows[i].value) in rows; }
    }
    if r in rows && !CombinedMatch(r, userId, p) {
      var i :| 0 <= i < |rows| && rows[i] == r;
      assert after[i] == r;
    }
    if exists was :: CombinedRow(userId, p, was) in rows {
      var was :| CombinedRow(userId, p, was) in rows;
      var i :| 0 <= i < |rows| && rows[i] == CombinedRow(userId, p, was);
      assert after[i] == CombinedRow(userId, p, v);
    }
  }

  // ----- Refinement: every SetPolicy keeps the mirror, whatever the storage does -----

  lemma SetAdminPolicyMirrors(c: Cache, t: Tables, userId: int, a: string, p: string, v: string, io: Outcome)
    requires Mirrors(c, t, userId)
    ensures var r := SetAdminPolicySpec(c, t, userId, a, p, v, io); Mirrors(r.cache, r.tables, userId)
  {
    var r := SetAdminPolicySpec(c, t, userId, a, p, v, io);
    if io == Done {
      forall a', p', v'
        ensures Lookup(r.cache.admins, a', p') == Some(v') <==> AdminRow(userId, a', p', v') in r.tables.adminRows
      {
        LookupPut(c.admins, a, p, v, a', p');
        if Lookup(c.admins, a, p).Some? {
          UpdateAdminRowsMember(t.adminRows, userId, a, p, v, AdminRow(userId, a', p', v'));
          assert AdminRow(userId, a, p, Lookup(c.admins, a, p).value) in t.adminRows;
        }
      }
      if Lookup(c.admins, a, p).None? {
        forall i | 0 <= i < |t.adminRows| && t.adminRows[i].userId == userId
          ensures !AdminMatch(t.adminRows[i], userId, a, p)
        {
          var row := t.adminRows[i];
          assert Lookup(c.admins, row.admin, row.policy) == Some(row.value);
        }
      }
    }
  }

  lemma DeleteAdminPolicyMirrors(c: Cache, t: Tables, userId: int, a: string, p: string, io: Outcome)
    requires Mirrors(c, t, userId)
    ensures var r := DeleteAdminPolicySpec(c, t, userId, a, p, io); Mirrors(r.cache, r.tables, userId)
  {
    var r := DeleteAdminPolicySpec(c, t, userId, a, p, io);
    if io == Done {
      DeleteAdminRowsUnique(t.adminRows, userId, a, p, userId);
      forall a', p', v'
        ensures Lookup(r.cache.admins, a', p') == Some(v') <==> AdminRow(userId, a', p', v') in r.tables.adminRows
      {
        LookupDrop(c.admins, a, p, a', p');
        DeleteAdminRowsMember(t.adminRows, userId, a, p, AdminRow(userId, a', p', v'));
      }
    }
  }

  lemma CombinedPolicyMirrors(c: Cache, t: Tables, userId: int, p: string, merged: string, io: Outcome)
    requires Mirrors(c, t, userId)
    ensures var r := DeleteCombinedPolicySpec(c, t, userId, p, io); Mirrors(r.cache, r.tables, userId)
    ensures var r := SetCombinedPolicySpec(c, t, userId, p, merged, io); Mirrors(r.cache, r.tables, userId)
  {
    if io == Done {
      var d := DeleteCombinedPolicySpec(c, t, userId, p, io);
      DeleteCombinedRowsUnique(t.combinedRows, userId, p, userId);
      forall p', v'
        ensures Find(d.cache.combined, p') == Some(v') <==> CombinedRow(userId, p', v') in d.tables.combinedRows
      {
        DeleteCombinedRowsMember(t.combinedRows, userId, p, CombinedRow(userId, p', v'));
      }
      var s := SetCombinedPolicySpec(c, t, userId, p, merged, io);
      forall p', v'
        ensures Find(s.cache.combined, p') == Some(v') <==> CombinedRow(userId, p', v') in s.tables.combinedRows
      {
        UpdateCombinedRowsMember(t.combinedRows, userId, p, merged, CombinedRow(userId, p', v'));
        if p in c.combined { assert Find(c.combined, p) == Some(c.combined[p]); }
      }
      if p !in c.combined {
        forall i | 0 <= i < |t.combinedRows| && t.combinedRows[i].userId == userId
          ensures t.combinedRows[i].policy != p
        {
          assert CombinedRow(userId, t.combinedRows[i].policy, t.combinedRows[i].value) in t.combinedRows;
        }
      }
    }
  }

  lemma SetPolicyMirrors(c: Cache, t: Tables, userId: int, a: string, p: string, v: string, merged: string,
                         combinedIo: Outcome, adminIo: Outcome)
    requires Mirrors(c, t, userId)
    ensures var r := SetPolicySpec(c, t, userId, a, p, v, merged, combinedIo, adminIo);
            Mirrors(r.cache, r.tables, userId)
  {
    CombinedPolicyMirrors(c, t, userId, p, merged, combinedIo);
    var first := WriteCombined(c, t, userId, p, merged, combinedIo);
    DeleteAdminPolicyMirrors(first.cache, first.tables, userId, a, p, adminIo);
    SetAdminPolicyMirrors(first.cache, first.tables, userId, a, p, v, adminIo);
  }

  // ----- Init rebuilds the maps -----

  lemma {:induction false} SelectAdminRowsMember(rows: seq<AdminRow>, userId: int, r: AdminRow)
    ensures r in SelectAdminRows(rows, userId) <==> r in rows && r.userId == userId
  {
    if rows != [] {
      SelectAdminRowsMember(rows[..|rows| - 1], userId, r);
      assert rows == rows[..|rows| - 1] + [rows[|rows| - 1]];
    }
  }

  lemma {:induction false} SelectCombinedRowsMember(rows: seq<CombinedRow>, userId: int, r: CombinedRow)
    ensures r in SelectCombinedRows(rows, userId) <==> r in rows && r.userId == userId
  {
    if rows != [] {
      SelectCombinedRowsMember(rows[..|rows| - 1], userId, r);
      assert rows == rows[..|rows| - 1] + [rows[|rows| - 1]];
    }
  }

  lemma {:induction false} SelectAdminRowsUnique(rows: seq<AdminRow>, userId: int)
    requires UniqueAdminRows(rows, userId)
    ensures UniqueAdminRows(SelectAdminRows(rows, userId), userId)
  {
    if rows != [] {
      var init, last := rows[..|rows| - 1], rows[|rows| - 1];
      SelectAdminRowsUnique(init, userId);
      var kept := SelectAdminRows(init, userId);
      forall i | 0 <= i < |kept| ensures !AdminMatch(last, userId, kept[i].admin, kept[i].policy) {
        SelectAdminRowsMember(init, userId, kept[i]);
        assert kept[i] in init;
      }
    }
  }

  lemma {:induction false} SelectCombinedRowsUnique(rows: seq<CombinedRow>, userId: int)
    requires UniqueCombinedRows(rows, userId)
    ensures UniqueCombinedRows(SelectCombinedRows(rows, userId), userId)
  {
    if rows != [] {
      var init, last := rows[..|rows| - 1], rows[|rows| - 1];
      SelectCombinedRowsUnique(init, userId);
      var kept := SelectCombinedRows(init, userId);
      forall i | 0 <= i < |kept| ensures !CombinedMatch(last, userId, kept[i].policy) {
        SelectCombinedRowsMember(init, userId, kept[i]);
        assert kept[i] in init;
      }
    }
  }

  /** What the two cursor loops build from the user's distinct rows, entry by entry. */
  lemma {:induction false} LoadedEntries(rows: seq<AdminRow>, userId: int, a: string, p: string, v: string)
    requires forall r :: r in rows ==> r.userId == userId
    requires UniqueAdminRows(rows, userId)
    ensures Lookup(LoadAdmins(map[], rows), a, p) == Some(v) <==> AdminRow(userId, a, p, v) in rows
    ensures Lookup(LoadIndex(map[], rows), p, a) == Lookup(LoadAdmins(map[], rows), a, p)
    ensures NoEmptyInner(LoadAdmins(map[], rows)) && NoEmptyInner(LoadIndex(map[], rows))
  {
    if rows != [] {
      var init, last := rows[..|rows| - 1], rows[|rows| - 1];
      assert rows == init + [last];
      LoadedEntries(init, userId, a, p, v);
      LastAdminRowIsNew(rows, userId);
      if Lookup(LoadAdmins(map[], init), last.admin, last.policy).Some? {
        LoadedEntries(init, userId, last.admin, last.policy,
                      Lookup(LoadAdmins(map[], init), last.admin, last.policy).value);
      } else {
        LoadedEntries(init, userId, last.admin, last.policy, last.value);
        LookupPut(LoadAdmins(map[], init), last.admin, last.policy, last.value, a, p);
        LookupPut(LoadIndex(map[], init), last.policy, last.admin, last.value, p, a);
        PutDropKeepFilled(LoadAdmins(map[], init), last.admin, last.policy, last.value);
        PutDropKeepFilled(LoadIndex(map[], init), last.policy, last.admin, last.value);
      }
    }
  }

  predicate IsFor(r: AdminRow, a: string, p: string) {
    r.admin == a && r.policy == p
  }

  /** The first row of the pair. */
  ghost predicate FirstFor(rows: seq<AdminRow>, a: string, p: string, i: nat) {
    i < |rows| && IsFor(rows[i], a, p) && forall j :: 0 <= j < i ==> !IsFor(rows[j], a, p)
  }

  ghost predicate FirstCombined(rows: seq<CombinedRow>, p: string, i: nat) {
    i < |rows| && rows[i].policy == p && forall j :: 0 <= j < i ==> rows[j].policy != p
  }

  /** When rows are there twice, as after a replacement by an owner of policies, the first one counts, for both maps. */
  lemma {:induction false} FirstRowCounts(rows: seq<AdminRow>, a: string, p: string)
    ensures forall i: nat :: FirstFor(rows, a, p, i) ==>
              Lookup(LoadAdmins(map[], rows), a, p) == Lookup(LoadIndex(map[], rows), p, a) == Some(rows[i].value)
    ensures (forall i :: 0 <= i < |rows| ==> !IsFor(rows[i], a, p)) ==>
              Lookup(LoadAdmins(map[], rows), a, p) == Lookup(LoadIndex(map[], rows), p, a) == None
  {
    if rows != [] {
      var init, last := rows[..|rows| - 1], rows[|rows| - 1];
      FirstRowCounts(init, a, p);
      FirstRowCounts(init, last.admin, last.policy);
      FirstOrNone(init, a, p);
      FirstOrNone(init, last.admin, last.policy);
      LookupPut(LoadAdmins(map[], init), last.admin, last.policy, last.value, a, p);
      LookupPut(LoadIndex(map[], init), last.policy, last.admin, last.value, p, a);
      forall i: nat | FirstFor(rows, a, p, i) && i < |init| ensures FirstFor(init, a, p, i) && init[i] == rows[i] {
        assert forall j :: 0 <= j < i ==> init[j] == rows[j];
      }
    }
  }

  lemma {:induction false} FirstOrNone(rows: seq<AdminRow>, a: string, p: string)
    ensures (exists i: nat :: FirstFor(rows, a, p, i)) || forall i :: 0 <= i < |rows| ==> !IsFor(rows[i], a, p)
  {
    if rows != [] {
      var init := rows[..|rows| - 1];
      FirstOrNone(init, a, p);
      if i: nat :| FirstFor(init, a, p, i) {
        assert forall j :: 0 <= j <= i ==> init[j] == rows[j];
        assert FirstFor(rows, a, p, i);
      } else {
        assert forall j :: 0 <= j < |init| ==> !IsFor(init[j], a, p) && init[j] == rows[j];
        if IsFor(rows[|rows| - 1], a, p) { assert FirstFor(rows, a, p, |rows| - 1); }
      }
    }
  }

  lemma {:induction false} FirstCombinedCounts(rows: seq<CombinedRow>, p: string)
    ensures forall i: nat :: FirstCombined(rows, p, i) ==> Find(LoadCombined(map[], rows), p) == Some(rows[i].value)
    ensures p in LoadCombined(map[], rows) <==> exists i: nat :: FirstCombined(rows, p, i)
  {
    if rows != [] {
      var init, last := rows[..|rows| - 1], rows[|rows| - 1];
      FirstCombinedCounts(init, p);
      assert forall j :: 0 <= j < |init| ==> init[j] == rows[j];
      if i: nat :| FirstCombined(init, p, i) {
        assert FirstCombined(rows, p, i);
        forall k: nat | FirstCombined(rows, p, k) ensures k == i {}
      } else {
        forall k: nat | FirstCombined(rows, p, k) && k < |init| ensures FirstCombined(init, p, k) {}
        NoneCombined(init, p);
        if last.policy == p { assert FirstCombined(rows, p, |init|); }
      }
    }
  }

  lemma {:induction false} NoneCombined(rows: seq<CombinedRow>, p: string)
    requires forall i: nat :: !FirstCombined(rows, p, i)
    ensures forall i :: 0 <= i < |rows| ==> rows[i].policy != p
  {
    if rows != [] {
      var init := rows[..|rows| - 1];
      forall i: nat ensures !FirstCombined(init, p, i) {
        if FirstCombined(init, p, i) { assert FirstCombined(rows, p, i); }
      }
      NoneCombined(init, p);
      assert forall j :: 0 <= j < |init| ==> init[j] == rows[j];
      assert !FirstCombined(rows, p, |init|);
    }
  }

  lemma LastAdminRowIsNew(rows: seq<AdminRow>, userId: int)
    requires rows != [] && UniqueAdminRows(rows, userId) && forall r :: r in rows ==> r.userId == userId
    ensures var last := rows[|rows| - 1];
            forall v :: AdminRow(userId, last.admin, last.policy, v) !in rows[..|rows| - 1]
  {
    var init, last := rows[..|rows| - 1], rows[|rows| - 1];
    forall r | r in init ensures !(r.admin == last.admin && r.policy == last.policy) {
      var i :| 0 <= i < |init| && init[i] == r;
      assert !AdminMatch(rows[|rows| - 1], userId, rows[i].admin, rows[i].policy);
    }
  }

  lemma LastCombinedRowIsNew(rows: seq<CombinedRow>, userId: int)
    requires rows != [] && UniqueCombinedRows(rows, userId) && forall r :: r in rows ==> r.userId == userId
    ensures var last := rows[|rows| - 1]; forall v :: CombinedRow(userId, last.policy, v) !in rows[..|rows| - 1]
  {
    var init, last := rows[..|rows| - 1], rows[|rows| - 1];
    forall r | r in init ensures r.policy != last.policy {
      var i :| 0 <= i < |init| && init[i] == r;
      assert !CombinedMatch(rows[|rows| - 1], userId, rows[i].policy);
    }
  }

  lemma {:induction false} LoadedCombined(rows: seq<CombinedRow>, userId: int, p: string, v: string)
    requires forall r :: r in rows ==> r.userId == userId
    requires UniqueCombinedRows(rows, userId)
    ensures Find(LoadCombined(map[], rows), p) == Some(v) <==> CombinedRow(userId, p, v) in rows
  {
    if rows != [] {
      var init, last := rows[..|rows| - 1], rows[|rows| - 1];
      assert rows == init + [last];
      LoadedCombined(init, userId, p, v);
      LastCombinedRowIsNew(rows, userId);
      var m := LoadCombined(map[], init);
      if last.policy in m { LoadedCombined(init, userId, last.policy, m[last.policy]); }
    }
  }

  /** A fresh manager that loads the tables gets the mirrored maps, and the exact transpose as its index. */
  lemma InitRebuilds(c: Cache, t: Tables, userId: int)
    requires Mirrors(c, t, userId)
    ensures var fresh_ := InitSpec(EMPTY_CACHE, t, userId, Done, Done);
            fresh_.admins == c.admins && fresh_.combined == c.combined && Transposed(c.admins, fresh_.index)
  {
    var rows := SelectAdminRows(t.adminRows, userId);
    var built := InitSpec(EMPTY_CACHE, t, userId, Done, Done);
    forall r | r in rows ensures r.userId == userId { SelectAdminRowsMember(t.adminRows, userId, r); }
    SelectAdminRowsUnique(t.adminRows, userId);
    LoadedEntries(rows, userId, "", "", "");
    forall a, p
      ensures Lookup(built.admins, a, p) == Lookup(c.admins, a, p)
      ensures Lookup(built.index, p, a) == Lookup(c.admins, a, p)
    {
      LoadedEntries(rows, userId, a, p, "");
      match Lookup(c.admins, a, p) {
        case Some(v) =>
          SelectAdminRowsMember(t.adminRows, userId, AdminRow(userId, a, p, v));
          LoadedEntries(rows, userId, a, p, v);
        case None =>
          if Lookup(built.admins, a, p).Some? {
            var v := Lookup(built.admins, a, p).value;
            LoadedEntries(rows, userId, a, p, v);
            SelectAdminRowsMember(t.adminRows, userId, AdminRow(userId, a, p, v));
          }
      }
    }
    EntriesDetermine(built.admins, c.admins);
    InitRebuildsCombined(c, t, userId);
  }

  lemma ItemsDetermine(m: Items, n: Items)
    requires forall p, v :: Find(m, p) == Some(v) <==> Find(n, p) == Some(v)
    ensures m == n
  {
    forall p ensures (p in m <==> p in n) && (p in m ==> m[p] == n[p]) {
      if p in m { assert Find(m, p) == Some(m[p]); }
      if p in n { assert Find(n, p) == Some(n[p]); }
    }
  }

  lemma InitRebuildsCombined(c: Cache, t: Tables, userId: int)
    requires MirrorsCombined(c, t, userId)
    ensures LoadCombined(map[], SelectCombinedRows(t.combinedRows, userId)) == c.combined
  {
    var rows := SelectCombinedRows(t.combinedRows, userId);
    var m := LoadCombined(map[], rows);
    forall r | r in rows ensures r.userId == userId { SelectCombinedRowsMember(t.combinedRows, userId, r); }
    SelectCombinedRowsUnique(t.combinedRows, userId);
    forall p, v ensures Find(m, p) == Some(v) <==> Find(c.combined, p) == Some(v) {
      LoadedCombined(rows, userId, p, v);
      SelectCombinedRowsMember(t.combinedRows, userId, CombinedRow(userId, p, v));
    }
    ItemsDetermine(m, c.combined);
  }

  /** Distinct rows are all a load needs to be a mirror. */
  lemma InitMirrors(t: Tables, userId: int)
    requires UniqueAdminRows(t.adminRows, userId) && UniqueCombinedRows(t.combinedRows, userId)
    ensures var c := InitSpec(EMPTY_CACHE, t, userId, Done, Done);
            Mirrors(c, t, userId) && Transposed(c.admins, c.index)
  {
    var c := InitSpec(EMPTY_CACHE, t, userId, Done, Done);
    var rows := SelectAdminRows(t.adminRows, userId);
    forall r | r in rows ensures r.userId == userId { SelectAdminRowsMember(t.adminRows, userId, r); }
    SelectAdminRowsUnique(t.adminRows, userId);
    LoadedEntries(rows, userId, "", "", "");
    forall a, p, v
      ensures Lookup(c.admins, a, p) == Some(v) <==> AdminRow(userId, a, p, v) in t.adminRows
      ensures Lookup(c.index, p, a) == Lookup(c.admins, a, p)
    {
      LoadedEntries(rows, userId, a, p, v);
      SelectAdminRowsMember(t.adminRows, userId, AdminRow(userId, a, p, v));
    }
    var combinedRows := SelectCombinedRows(t.combinedRows, userId);
    forall r | r in combinedRows ensures r.userId == userId { SelectCombinedRowsMember(t.combinedRows, userId, r); }
    SelectCombinedRowsUnique(t.combinedRows, userId);
    forall p, v
      ensures Find(c.combined, p) == Some(v) <==> CombinedRow(userId, p, v) in t.combinedRows
    {
      LoadedCombined(combinedRows, userId, p, v);
      SelectCombinedRowsMember(t.combinedRows, userId, CombinedRow(userId, p, v));
    }
  }

  // ----- Runs of SetPolicy calls with arbitrary storage outcomes -----

  datatype SetOp = SetOp(admin: string, policy: string, value: string, merged: string,
                         combinedIo: Outcome, adminIo: Outcome)

  function RunSets(c: Cache, t: Tables, userId: int, ops: seq<SetOp>): StoreResult {
    if ops == [] then StoreResult(c, t, ErrOk)
    else
      var before := RunSets(c, t, userId, ops[..|ops| - 1]);
      var op := ops[|ops| - 1];
      SetPolicySpec(before.cache, before.tables, userId, op.admin, op.policy, op.value, op.merged, op.combinedIo,
                    op.adminIo)
  }

  /** Store refinement: after any run, with any storage calls failing, the maps are the user's rows, and a
      restarted manager loads exactly the maps the running one holds. */
  lemma {:induction false} RunRefinesTables(c: Cache, t: Tables, userId: int, ops: seq<SetOp>)
    requires Mirrors(c, t, userId)
    ensures var r := RunSets(c, t, userId, ops);
            && Mirrors(r.cache, r.tables, userId)
            && var restarted := InitSpec(EMPTY_CACHE, r.tables, userId, Done, Done);
               restarted.admins == r.cache.admins && restarted.combined == r.cache.combined
  {
    if ops != [] {
      RunRefinesTables(c, t, userId, ops[..|ops| - 1]);
      var before := RunSets(c, t, userId, ops[..|ops| - 1]);
      var op := ops[|ops| - 1];
      SetPolicyMirrors(before.cache, before.tables, userId, op.admin, op.policy, op.value, op.merged, op.combinedIo,
                       op.adminIo);
    }
    var r := RunSets(c, t, userId, ops);
    InitRebuilds(r.cache, r.tables, userId);
  }

  // ----- The transposed index -----

  /** Outside `dirty` the index agrees with `admins`, and it has every key the transpose has. */
  ghost predicate IndexAgreesOff(c: Cache, dirty: set<(string, string)>) {
    && NoEmptyInner(c.index)
    && forall a, p :: && (Lookup(c.admins, a, p).Some? ==> Lookup(c.index, p, a).Some?)
                      && ((a, p) !in dirty ==> Lookup(c.index, p, a) == Lookup(c.admins, a, p))
  }

  /** The entries a failed admin-policy write left behind in the index; a later write of the same entry, or
      a delete by an admin that still owns something, repairs it. */
  function DirtyAfter(c: Cache, dirty: set<(string, string)>, op: SetOp): set<(string, string)> {
    var entry := (op.admin, op.policy);
    if op.policy == "" || op.admin == "" || op.adminIo == Unavailable then dirty
    else if op.value == "" then if op.adminIo == Done && op.admin in c.admins then dirty - {entry} else dirty
    else if op.adminIo == Failed then dirty + {entry}
    else dirty - {entry}
  }

  function DirtyAfterRun(c: Cache, t: Tables, userId: int, ops: seq<SetOp>): set<(string, string)> {
    if ops == [] then {}
    else
      var init := ops[..|ops| - 1];
      DirtyAfter(RunSets(c, t, userId, init).cache, DirtyAfterRun(c, t, userId, init), ops[|ops| - 1])
  }

  lemma StepIndexSet(c: Cache, t: Tables, userId: int, dirty: set<(string, string)>, a: string, p: string, v: string,
                     io: Outcome)
    requires IndexAgreesOff(c, dirty) && io != Unavailable
    ensures IndexAgreesOff(SetAdminPolicySpec(c, t, userId, a, p, v, io).cache,
                           if io == Failed then dirty + {(a, p)} else dirty - {(a, p)})
  {
    var r := SetAdminPolicySpec(c, t, userId, a, p, v, io).cache;
    PutDropKeepFilled(c.index, p, a, v);
    forall x, q
      ensures Lookup(r.index, q, x) == if x == a && q == p then Some(v) else Lookup(c.index, q, x)
      ensures Lookup(r.admins, x, q) == if x == a && q == p && io == Done then Some(v) else Lookup(c.admins, x, q)
    {
      LookupPut(c.admins, a, p, v, x, q);
      LookupPut(c.index, p, a, v, q, x);
    }
  }

  lemma StepIndexDelete(c: Cache, t: Tables, userId: int, dirty: set<(string, string)>, a: string, p: string)
    requires IndexAgreesOff(c, dirty)
    ensures IndexAgreesOff(DeleteAdminPolicySpec(c, t, userId, a, p, Done).cache,
                           if a in c.admins then dirty - {(a, p)} else dirty)
  {
    var r := DeleteAdminPolicySpec(c, t, userId, a, p, Done).cache;
    PutDropKeepFilled(c.index, p, a, "");
    if a in c.admins {
      forall x, q
        ensures Lookup(r.index, q, x) == if x == a && q == p then None else Lookup(c.index, q, x)
        ensures Lookup(r.admins, x, q) == if x == a && q == p then None else Lookup(c.admins, x, q)
      {
        LookupDrop(c.admins, a, p, x, q);
        LookupDrop(c.index, p, a, q, x);
      }
    }
  }

  lemma StepIndex(c: Cache, t: Tables, userId: int, dirty: set<(string, string)>, op: SetOp)
    requires IndexAgreesOff(c, dirty)
    ensures var r := SetPolicySpec(c, t, userId, op.admin, op.policy, op.value, op.merged, op.combinedIo, op.adminIo);
            IndexAgreesOff(r.cache, DirtyAfter(c, dirty, op))
  {
    if op.policy != "" {
      var first := WriteCombined(c, t, userId, op.policy, op.merged, op.combinedIo);
      assert IndexAgreesOff(first.cache, dirty);
      if op.admin != "" && op.value == "" {
        StepIndexDelete(first.cache, first.tables, userId, dirty, op.admin, op.policy);
      } else if op.admin != "" && op.adminIo != Unavailable {
        StepIndexSet(first.cache, first.tables, userId, dirty, op.admin, op.policy, op.value, op.adminIo);
      }
    }
  }

  /** The index in every run from an exact start, failures included. */
  lemma {:induction false} RunIndex(c: Cache, t: Tables, userId: int, ops: seq<SetOp>)
    requires Transposed(c.admins, c.index)
    ensures IndexAgreesOff(RunSets(c, t, userId, ops).cache, DirtyAfterRun(c, t, userId, ops))
  {
    if ops != [] {
      var init := ops[..|ops| - 1];
      RunIndex(c, t, userId, init);
      var before := RunSets(c, t, userId, init);
      StepIndex(before.cache, before.tables, userId, DirtyAfterRun(c, t, userId, init), ops[|ops| - 1]);
    }
  }

  /** A failed delete does no harm. */
  predicate NoFailedAdminWrite(ops: seq<SetOp>) {
    forall op :: op in ops && op.admin != "" && op.policy != "" && op.value != "" ==> op.adminIo != Failed
  }

  /** Without a failed write of an admin's value the index is exactly the transpose. */
  lemma RunIndexExact(c: Cache, t: Tables, userId: int, ops: seq<SetOp>)
    requires Transposed(c.admins, c.index) && NoFailedAdminWrite(ops)
    ensures var r := RunSets(c, t, userId, ops).cache; Transposed(r.admins, r.index)
  {
    RunIndex(c, t, userId, ops);
    NothingDirty(c, t, userId, ops);
  }

  lemma {:induction false} NothingDirty(c: Cache, t: Tables, userId: int, ops: seq<SetOp>)
    requires NoFailedAdminWrite(ops)
    ensures DirtyAfterRun(c, t, userId, ops) == {}
  {
    if ops != [] {
      assert forall op :: op in ops[..|ops| - 1] ==> op in ops;
      NothingDirty(c, t, userId, ops[..|ops| - 1]);
      assert ops[|ops| - 1] in ops;
    }
  }

  /** Exactly when a failed write leaves a wrong index behind: unless the value was already stored. */
  lemma FailedWriteKeepsIndexIff(c: Cache, t: Tables, userId: int, op: SetOp)
    requires Transposed(c.admins, c.index)
    requires op.admin != "" && op.policy != "" && op.value != "" && op.adminIo == Failed
    ensures var r := SetPolicySpec(c, t, userId, op.admin, op.policy, op.value, op.merged, op.combinedIo,
                                   op.adminIo).cache;
            Transposed(r.admins, r.index) <==> Lookup(c.admins, op.admin, op.policy) == Some(op.value)
  {
    var r := SetPolicySpec(c, t, userId, op.admin, op.policy, op.value, op.merged, op.combinedIo, op.adminIo).cache;
    PutDropKeepFilled(c.index, op.policy, op.admin, op.value);
    forall a, p ensures Lookup(r.index, p, a) == if a == op.admin && p == op.policy then Some(op.value)
                                                 else Lookup(c.admins, a, p)
    {
      LookupPut(c.index, op.policy, op.admin, op.value, p, a);
    }
    assert Lookup(r.index, op.policy, op.admin) == Some(op.value);
  }

  /** A completed delete clears the index entry exactly when the admin still owned some policy. */
  lemma DeleteClearsIndexIff(c: Cache, t: Tables, userId: int, a: string, p: string)
    ensures var r := DeleteAdminPolicySpec(c, t, userId, a, p, Done).cache;
            Lookup(r.index, p, a) == None <==> a in c.admins || Lookup(c.index, p, a) == None
  {
    LookupDrop(c.index, p, a, p, a);
  }

  // ----- Codes -----

  /** What a call that writes or deletes a value answers. */
  predicate Answers(err: ErrCode, value: string, io: Outcome) {
    && (err == ErrOk <==> io == Done)
    && (err == ErrGetStorageRdbFailed <==> io == Unavailable)
    && (err == ErrPolicyDelFailed <==> io == Failed && value == "")
    && (err == ErrPolicySetFailed <==> io == Failed && value != "")
  }

  /** A save under an empty policy name is refused and changes nothing; one with an administrator's name answers for the
      administrator's value, one without for the combined value. */
  lemma SetPolicyAnswers(c: Cache, t: Tables, userId: int, a: string, p: string, v: string, merged: string,
                         combinedIo: Outcome, adminIo: Outcome)
    ensures var r := SetPolicySpec(c, t, userId, a, p, v, merged, combinedIo, adminIo);
            && (p == "" ==> r == StoreResult(c, t, ErrPolicySetFailed))
            && (p != "" && a != "" ==> Answers(r.err, v, adminIo))
            && (p != "" && a == "" ==> Answers(r.err, merged, combinedIo))
  {
  }

  /** A replacement answers for its one row call, and changes nothing when that is not done. */
  lemma ReplaceAnswers(c: Cache, t: Tables, userId: int, a: string, b: string, io: Outcome)
    ensures var r := ReplaceSpec(c, t, userId, a, b, io);
            && (r.err == ErrOk <==> io == Done) && (r.err == ErrGetStorageRdbFailed <==> io == Unavailable)
            && (r.err == ErrPolicyReplaceFailed <==> io == Failed) && (io != Done ==> r.cache == c && r.tables == t)
  {
  }

  // ----- Rows of the other users -----

  lemma {:induction false} OtherUserAdminUpdate(rows: seq<AdminRow>, userId: int, a: string, p: string, v: string,
                                                other: int)
    requires other != userId
    ensures SelectAdminRows(UpdateAdminRows(rows, userId, a, p, v), other) == SelectAdminRows(rows, other)
  {
    if rows != [] {
      var init := rows[..|rows| - 1];
      OtherUserAdminUpdate(init, userId, a, p, v, other);
      assert UpdateAdminRows(rows, userId, a, p, v)[..|rows| - 1] == UpdateAdminRows(init, userId, a, p, v);
    }
  }

  lemma {:induction false} OtherUserAdminDelete(rows: seq<AdminRow>, userId: int, a: string, p: string, other: int)
    requires other != userId
    ensures SelectAdminRows(DeleteAdminRows(rows, userId, a, p), other) == SelectAdminRows(rows, other)
  {
    if rows != [] {
      var init, last := rows[..|rows| - 1], rows[|rows| - 1];
      OtherUserAdminDelete(init, userId, a, p, other);
      var kept := DeleteAdminRows(init, userId, a, p);
      assert (kept + [last])[..|kept|] == kept;
    }
  }

  lemma {:induction false} OtherUserAdminRename(rows: seq<AdminRow>, userId: int, a: string, b: string, other: int)
    requires other != userId
    ensures SelectAdminRows(RenameAdminRows(rows, userId, a, b), other) == SelectAdminRows(rows, other)
  {
    if rows != [] {
      var init := rows[..|rows| - 1];
      OtherUserAdminRename(init, userId, a, b, other);
      assert RenameAdminRows(rows, userId, a, b)[..|rows| - 1] == RenameAdminRows(init, userId, a, b);
    }
  }

  lemma {:induction false} OtherUserCombinedRows(rows: seq<CombinedRow>, userId: int, p: string, v: string, other: int)
    requires other != userId
    ensures SelectCombinedRows(InsertCombinedRow(rows, userId, p, v), other) == SelectCombinedRows(rows, other)
    ensures SelectCombinedRows(UpdateCombinedRows(rows, userId, p, v), other) == SelectCombinedRows(rows, other)
    ensures SelectCombinedRows(DeleteCombinedRows(rows, userId, p), other) == SelectCombinedRows(rows, other)
  {
    assert InsertCombinedRow(rows, userId, p, v)[..|rows|] == rows;
    if rows != [] {
      var init, last := rows[..|rows| - 1], rows[|rows| - 1];
      OtherUserCombinedRows(init, userId, p, v, other);
      assert UpdateCombinedRows(rows, userId, p, v)[..|rows| - 1] == UpdateCombinedRows(init, userId, p, v);
      var kept := DeleteCombinedRows(init, userId, p);
      assert (kept + [last])[..|kept|] == kept;
    }
  }

  /** Nothing another user's manager could load changes. */
  ghost predicate SameForUser(t: Tables, t': Tables, other: int) {
    && SelectAdminRows(t'.adminRows, other) == SelectAdminRows(t.adminRows, other)
    && SelectCombinedRows(t'.combinedRows, other) == SelectCombinedRows(t.combinedRows, other)
  }

  lemma CombinedOtherUser(c: Cache, t: Tables, userId: int, p: string, merged: string, io: Outcome, other: int)
    requires other != userId
    ensures SameForUser(t, DeleteCombinedPolicySpec(c, t, userId, p, io).tables, other)
    ensures SameForUser(t, SetCombinedPolicySpec(c, t, userId, p, merged, io).tables, other)
  {
    OtherUserCombinedRows(t.combinedRows, userId, p, merged, other);
  }

  lemma AdminOtherUser(c: Cache, t: Tables, userId: int, a: string, p: string, v: string, io: Outcome, other: int)
    requires other != userId
    ensures SameForUser(t, DeleteAdminPolicySpec(c, t, userId, a, p, io).tables, other)
    ensures SameForUser(t, SetAdminPolicySpec(c, t, userId, a, p, v, io).tables, other)
  {
    OtherUserAdminUpdate(t.adminRows, userId, a, p, v, other);
    OtherUserAdminDelete(t.adminRows, userId, a, p, other);
    assert InsertAdminRow(t.adminRows, userId, a, p, v)[..|t.adminRows|] == t.adminRows;
  }

  lemma SetPolicyOtherUser(c: Cache, t: Tables, userId: int, a: string, p: string, v: string, merged: string,
                           combinedIo: Outcome, adminIo: Outcome, other: int)
    requires other != userId
    ensures SameForUser(t, SetPolicySpec(c, t, userId, a, p, v, merged, combinedIo, adminIo).tables, other)
  {
    CombinedOtherUser(c, t, userId, p, merged, combinedIo, other);
    var first := WriteCombined(c, t, userId, p, merged, combinedIo);
    AdminOtherUser(first.cache, first.tables, userId, a, p, v, adminIo, other);
  }

  lemma ReplaceOtherUser(c: Cache, t: Tables, userId: int, a: string, b: string, io: Outcome, other: int)
    requires other != userId
    ensures SameForUser(t, ReplaceSpec(c, t, userId, a, b, io).tables, other)
  {
    OtherUserAdminRename(t.adminRows, userId, a, b, other);
  }

  // ----- Replacing an admin -----

  /** What a faithful renaming of one admin would do to the entries. */
  ghost predicate Renamed(m: NestedItems, m': NestedItems, a: string, b: string) {
    forall x, p :: Lookup(m', x, p) ==
                   if x == b && a in m then Lookup(m, a, p) else if x == a then None else Lookup(m, x, p)
  }

  lemma RenameRowsMember(rows: seq<AdminRow>, userId: int, a: string, b: string, r: AdminRow)
    ensures r in RenameAdminRows(rows, userId, a, b) <==>
            || (r in rows && !(r.userId == userId && r.admin == a))
            || (r.userId == userId && r.admin == b && AdminRow(userId, a, r.policy, r.value) in rows)
  {
    var after := RenameAdminRows(rows, userId, a, b);
    if r in after {
      var i :| 0 <= i < |after| && after[i] == r;
      if rows[i].userId == userId && rows[i].admin == a {
        assert rows[i] == AdminRow(userId, a, r.policy, r.value);
      }
    }
    if r in rows && !(r.userId == userId && r.admin == a) {
      var i :| 0 <= i < |rows| && rows[i] == r;
      assert after[i] == r;
    }
    if r.userId == userId && r.admin == b && AdminRow(userId, a, r.policy, r.value) in rows {
      var i :| 0 <= i < |rows| && rows[i] == AdminRow(userId, a, r.policy, r.value);
      assert after[i] == r;
    }
  }

  predicate ReplaceIsSafe(c: Cache, a: string, b: string) {
    a == b || a !in c.admins || b !in c.admins
  }

  /** A completed replacement keeps maps and rows in step exactly when the two admins do not both own policies. */
  lemma ReplaceMirrorsIff(c: Cache, t: Tables, userId: int, a: string, b: string)
    requires Mirrors(c, t, userId)
    ensures var r := ReplaceSpec(c, t, userId, a, b, Done);
            Mirrors(r.cache, r.tables, userId) <==> ReplaceIsSafe(c, a, b)
  {
    var r := ReplaceSpec(c, t, userId, a, b, Done);
    if ReplaceIsSafe(c, a, b) {
      ReplaceKeepsMirror(c, t, userId, a, b);
    } else {
      var p :| p in c.admins[b];
      var v := c.admins[b][p];
      assert Lookup(c.admins, b, p) == Some(v);
      RenameRowsMember(t.adminRows, userId, a, b, AdminRow(userId, b, p, v));
      assert AdminRow(userId, b, p, v) in r.tables.adminRows;
      if Mirrors(r.cache, r.tables, userId) {
        assert Lookup(r.cache.admins, b, p) == Some(v);
        assert Lookup(c.admins, a, p) == Some(v);
        TwoOwnersClash(t.adminRows, userId, a, b, p, v);
      }
    }
  }

  lemma TwoOwnersClash(rows: seq<AdminRow>, userId: int, a: string, b: string, p: string, v: string)
    requires a != b && AdminRow(userId, a, p, v) in rows && AdminRow(userId, b, p, v) in rows
    ensures !UniqueAdminRows(RenameAdminRows(rows, userId, a, b), userId)
  {
    var i :| 0 <= i < |rows| && rows[i] == AdminRow(userId, a, p, v);
    var j :| 0 <= j < |rows| && rows[j] == AdminRow(userId, b, p, v);
    var after := RenameAdminRows(rows, userId, a, b);
    var lo, hi := if i < j then i else j, if i < j then j else i;
    assert after[lo].userId == userId && AdminMatch(after[hi], userId, after[lo].admin, after[lo].policy);
  }

  /** Two administrators that set a policy each, the later one taking the place of the earlier one. */
  function TwoOwners(userId: int, a: string, b: string, p: string, v: string, w: string): StoreResult {
    var second := SetPolicySpec(EMPTY_CACHE, Tables([], []), userId, b, p, w, w, Done, Done);
    SetPolicySpec(second.cache, second.tables, userId, a, p, v, v, Done, Done)
  }

  lemma TwoOwnersAre(userId: int, a: string, b: string, p: string, v: string, w: string)
    requires a != b && a != "" && b != "" && p != "" && v != "" && w != ""
    ensures var r := TwoOwners(userId, a, b, p, v, w);
            && r.cache.admins == map[b := map[p := w], a := map[p := v]]
            && r.tables.adminRows == [AdminRow(userId, b, p, w), AdminRow(userId, a, p, v)]
            && Mirrors(r.cache, r.tables, userId)
  {
    var second := SetPolicySpec(EMPTY_CACHE, Tables([], []), userId, b, p, w, w, Done, Done);
    assert Mirrors(EMPTY_CACHE, Tables([], []), userId);
    SetPolicyMirrors(EMPTY_CACHE, Tables([], []), userId, b, p, w, w, Done, Done);
    assert second.tables.adminRows == [AdminRow(userId, b, p, w)] && second.cache.admins == map[b := map[p := w]];
    SetPolicyMirrors(second.cache, second.tables, userId, a, p, v, v, Done, Done);
  }

  lemma LoadTwo(userId: int, b: string, p: string, w: string, v: string)
    ensures var rows := [AdminRow(userId, b, p, w), AdminRow(userId, b, p, v)];
            Lookup(LoadAdmins(map[], SelectAdminRows(rows, userId)), b, p) == Some(w)
  {
    var one, two := [AdminRow(userId, b, p, w)], [AdminRow(userId, b, p, w), AdminRow(userId, b, p, v)];
    assert two[..1] == one && one[..0] == [];
    assert SelectAdminRows([], userId) == [] && [] + one == one && SelectAdminRows(one, userId) == one;
    assert SelectAdminRows(two, userId) == one + [AdminRow(userId, b, p, v)] == two;
    assert LoadAdmins(map[], []) == map[] && Lookup(LoadAdmins(map[], one), b, p) == Some(w);
  }

  /** From an empty store two administrators set one policy, and then the second takes over the name of the first: maps
      and rows part, and a restart brings back the other value. */
  lemma ReplaceRevivesValue(userId: int, a: string, b: string, p: string, v: string, w: string)
    requires a != b && a != "" && b != "" && p != "" && v != "" && w != ""
    ensures var r := TwoOwners(userId, a, b, p, v, w);
            var replaced := ReplaceSpec(r.cache, r.tables, userId, a, b, Done);
            && replaced.err == ErrOk && !Mirrors(replaced.cache, replaced.tables, userId)
            && Lookup(replaced.cache.admins, b, p) == Some(v)
            && Lookup(InitSpec(EMPTY_CACHE, replaced.tables, userId, Done, Done).admins, b, p) == Some(w)
  {
    var r := TwoOwners(userId, a, b, p, v, w);
    var replaced := ReplaceSpec(r.cache, r.tables, userId, a, b, Done);
    TwoOwnersAre(userId, a, b, p, v, w);
    ReplaceMirrorsIff(r.cache, r.tables, userId, a, b);
    assert replaced.tables.adminRows == [AdminRow(userId, b, p, w), AdminRow(userId, b, p, v)];
    LoadTwo(userId, b, p, w, v);
  }

  lemma ReplaceKeepsMirror(c: Cache, t: Tables, userId: int, a: string, b: string)
    requires Mirrors(c, t, userId) && ReplaceIsSafe(c, a, b)
    ensures var r := ReplaceSpec(c, t, userId, a, b, Done);
            Mirrors(r.cache, r.tables, userId) && Renamed(c.admins, r.cache.admins, a, b)
  {
    var r := ReplaceSpec(c, t, userId, a, b, Done);
    forall x, p, v
      ensures Lookup(r.cache.admins, x, p) == Some(v) <==> AdminRow(userId, x, p, v) in r.tables.adminRows
    {
      RenameRowsMember(t.adminRows, userId, a, b, AdminRow(userId, x, p, v));
      assert Lookup(c.admins, a, p) == Some(v) <==> AdminRow(userId, a, p, v) in t.adminRows;
      assert Lookup(c.admins, b, p) == Some(v) <==> AdminRow(userId, b, p, v) in t.adminRows;
    }
    var after := r.tables.adminRows;
    forall i, j | 0 <= i < j < |after| && after[i].userId == userId
      ensures !AdminMatch(after[j], userId, after[i].admin, after[i].policy)
    {
      var ri, rj := t.adminRows[i], t.adminRows[j];
      assert Lookup(c.admins, ri.admin, ri.policy) == Some(ri.value);
      if rj.userId == userId { assert Lookup(c.admins, rj.admin, rj.policy) == Some(rj.value); }
    }
  }

  lemma ReplaceKeepsTranspose(c: Cache, t: Tables, userId: int, a: string, b: string)
    requires NoEmptyInner(c.admins) && Transposed(c.admins, c.index) && ReplaceIsSafe(c, a, b)
    ensures var r := ReplaceSpec(c, t, userId, a, b, Done).cache; Transposed(r.admins, r.index)
  {
    var r := ReplaceSpec(c, t, userId, a, b, Done).cache;
    forall x, p ensures Lookup(r.admins, x, p) == Lookup(r.index, p, x) {
      assert Lookup(c.admins, x, p) == Lookup(c.index, p, x);
      assert Lookup(c.admins, a, p) == Lookup(c.index, p, a);
      assert Lookup(c.admins, b, p) == Lookup(c.index, p, b);
    }
    forall p | p in r.index ensures r.index[p] != map[] {
      if a in c.index[p] { assert b in r.index[p]; }
    }
  }

  /** Replacement under a name that owns nothing is undone by the reverse replacement: maps, index and rows. */
  lemma ReplaceBackIsIdentity(c: Cache, t: Tables, userId: int, a: string, b: string)
    requires Mirrors(c, t, userId) && Transposed(c.admins, c.index) && b !in c.admins
    ensures var r := ReplaceSpec(c, t, userId, a, b, Done);
            ReplaceSpec(r.cache, r.tables, userId, b, a, Done) == StoreResult(c, t, ErrOk)
  {
    var r := ReplaceSpec(c, t, userId, a, b, Done);
    var back := ReplaceSpec(r.cache, r.tables, userId, b, a, Done);
    assert back.cache.admins == c.admins;
    forall p | p in c.index ensures back.cache.index[p] == c.index[p] {
      assert Lookup(c.admins, b, p) == Lookup(c.index, p, b);
    }
    assert back.cache.index == c.index;
    forall i | 0 <= i < |t.adminRows| ensures back.tables.adminRows[i] == t.adminRows[i] {
      var row := t.adminRows[i];
      if row.userId == userId { assert Lookup(c.admins, row.admin, row.policy) == Some(row.value); }
    }
    assert back.tables.adminRows == t.adminRows;
  }
}
