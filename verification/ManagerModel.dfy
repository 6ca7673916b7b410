/** The policy manager as a value: the two tables and the caches of the users loaded so far. A user's cache
    is built the first time the user is named. */
module ManagerModel {
  import opened PolicyModel
  import opened StoreLaws

  const DEFAULT_USER_ID := 100

  /** How the two queries of a first load end. */
  datatype LoadIo = LoadIo(admin: Outcome, combined: Outcome)

  const LOAD_OK := LoadIo(Done, Done)

  datatype ManagerState = ManagerState(tables: Tables, caches: map<int, Cache>)

  function LoadCache(t: Tables, userId: int, load: LoadIo): Cache {
    InitSpec(EMPTY_CACHE, t, userId, load.admin, load.combined)
  }

  function Loaded(s: ManagerState, userId: int, load: LoadIo): ManagerState {
    if userId in s.caches then s else s.(caches := s.caches[userId := LoadCache(s.tables, userId, load)])
  }

  function ReadPolicy(c: Cache, admin: string, policy: string): Option<string> {
    if admin == "" then Find(c.combined, policy) else Lookup(c.admins, admin, policy)
  }

  function ReadAdmins(c: Cache, policy: string): Option<Items> {
    if policy in c.index then Some(c.index[policy]) else None
  }

  function ReadAll(c: Cache, admin: string): Option<Items> {
    if admin in c.admins then Some(c.admins[admin]) else None
  }

  datatype ManagerResult = ManagerResult(state: ManagerState, err: ErrCode)

  function StoreBack(s: ManagerState, userId: int, r: StoreResult): ManagerResult {
    ManagerResult(ManagerState(r.tables, s.caches[userId := r.cache]), r.err)
  }

  function SetPolicyAll(s: ManagerState, userId: int, admin: string, policy: string, value: string, merged: string,
                        load: LoadIo, combinedIo: Outcome, adminIo: Outcome): ManagerResult
  {
    var l := Loaded(s, userId, load);
    StoreBack(l, userId,
              SetPolicySpec(l.caches[userId], l.tables, userId, admin, policy, value, merged, combinedIo, adminIo))
  }

  function ReplaceAllSpec(s: ManagerState, userId: int, admin: string, newAdmin: string, load: LoadIo,
                          io: Outcome): ManagerResult
  {
    var l := Loaded(s, userId, load);
    StoreBack(l, userId, ReplaceSpec(l.caches[userId], l.tables, userId, admin, newAdmin, io))
  }

  lemma SomeUser(users: set<int>)
    ensures users == {} || exists u :: u in users
  {
    if forall u :: u !in users { assert users == {}; }
  }

  function PolicyUserIds(s: ManagerState): set<int> {
    s.caches.Keys - {DEFAULT_USER_ID}
  }

  /** `Init` at start-up: the default user's manager is rebuilt, another user's is kept when it exists. */
  function InitUsers(s: ManagerState, userIds: seq<int>, load: seq<LoadIo>): ManagerState
    requires |userIds| == |load|
  {
    if userIds == [] then s
    else
      var n := |userIds| - 1;
      var before := InitUsers(s, userIds[..n], load[..n]);
      if userIds[n] == DEFAULT_USER_ID || userIds[n] !in before.caches
      then before.(caches := before.caches[userIds[n] := LoadCache(before.tables, userIds[n], load[n])])
      else before
  }

  // ----- One map from (user, admin, policy) to value -----

  /** The cache a user has, or would get on a first load that succeeds. */
  function CacheOf(s: ManagerState, userId: int): Cache {
    if userId in s.caches then s.caches[userId] else LoadCache(s.tables, userId, LOAD_OK)
  }

  function Value(s: ManagerState, userId: int, admin: string, policy: string): Option<string> {
    Lookup(CacheOf(s, userId).admins, admin, policy)
  }

  function Combined(s: ManagerState, userId: int, policy: string): Option<string> {
    Find(CacheOf(s, userId).combined, policy)
  }

  /** Every loaded cache mirrors the rows, and the rows of users not loaded yet are distinct. */
  ghost predicate Consistent(s: ManagerState) {
    && (forall u :: u in s.caches ==> Mirrors(s.caches[u], s.tables, u))
    && (forall u :: u !in s.caches ==>
          UniqueAdminRows(s.tables.adminRows, u) && UniqueCombinedRows(s.tables.combinedRows, u))
  }

  ghost predicate AllMirror(s: ManagerState) {
    forall u :: Mirrors(CacheOf(s, u), s.tables, u)
  }

  lemma ConsistentIsAllMirror(s: ManagerState)
    ensures Consistent(s) <==> AllMirror(s)
  {
    if Consistent(s) {
      forall u ensures Mirrors(CacheOf(s, u), s.tables, u) {
        if u !in s.caches { InitMirrors(s.tables, u); }
      }
    }
    if AllMirror(s) {
      forall u | u in s.caches ensures Mirrors(s.caches[u], s.tables, u) { assert CacheOf(s, u) == s.caches[u]; }
      forall u | u !in s.caches
        ensures UniqueAdminRows(s.tables.adminRows, u) && UniqueCombinedRows(s.tables.combinedRows, u)
      {
        assert Mirrors(CacheOf(s, u), s.tables, u);
      }
    }
  }

  lemma {:induction false} SelectUnique(rows: seq<AdminRow>, userId: int)
    ensures UniqueAdminRows(SelectAdminRows(rows, userId), userId) ==> UniqueAdminRows(rows, userId)
  {
    if rows != [] && UniqueAdminRows(SelectAdminRows(rows, userId), userId) {
      var init, last := rows[..|rows| - 1], rows[|rows| - 1];
      var kept := SelectAdminRows(init, userId);
      assert last.userId == userId ==> (kept + [last])[..|kept|] == kept;
      assert UniqueAdminRows(kept, userId) by {
        if last.userId == userId {
          forall i, j | 0 <= i < j < |kept| ensures !AdminMatch(kept[j], userId, kept[i].admin, kept[i].policy) {
            SelectAdminRowsMember(init, userId, kept[i]);
            assert (kept + [last])[i] == kept[i] && (kept + [last])[j] == kept[j];
          }
        }
      }
      SelectUnique(init, userId);
      forall i, j | 0 <= i < j < |rows| && rows[i].userId == userId
        ensures !AdminMatch(rows[j], userId, rows[i].admin, rows[i].policy)
      {
        if j < |rows| - 1 {
          assert init[i] == rows[i] && init[j] == rows[j];
        } else if last.userId == userId {
          assert init[i] == rows[i];
          SelectAdminRowsMember(init, userId, rows[i]);
          var k :| 0 <= k < |kept| && kept[k] == rows[i];
          var all := SelectAdminRows(rows, userId);
          assert all[k] == rows[i] && all[|kept|] == last;
          assert !AdminMatch(all[|kept|], userId, all[k].admin, all[k].policy);
        }
      }
    }
  }

  lemma {:induction false} SelectUniqueCombined(rows: seq<CombinedRow>, userId: int)
    ensures UniqueCombinedRows(SelectCombinedRows(rows, userId), userId) ==> UniqueCombinedRows(rows, userId)
  {
    if rows != [] && UniqueCombinedRows(SelectCombinedRows(rows, userId), userId) {
      var init, last := rows[..|rows| - 1], rows[|rows| - 1];
      var kept := SelectCombinedRows(init, userId);
      assert UniqueCombinedRows(kept, userId) by {
        if last.userId == userId {
          forall i, j | 0 <= i < j < |kept| ensures !CombinedMatch(kept[j], userId, kept[i].policy) {
            SelectCombinedRowsMember(init, userId, kept[i]);
            assert (kept + [last])[i] == kept[i] && (kept + [last])[j] == kept[j];
          }
        }
      }
      SelectUniqueCombined(init, userId);
      forall i, j | 0 <= i < j < |rows| && rows[i].userId == userId
        ensures !CombinedMatch(rows[j], userId, rows[i].policy)
      {
        if j < |rows| - 1 {
          assert init[i] == rows[i] && init[j] == rows[j];
        } else if last.userId == userId {
          assert init[i] == rows[i];
          SelectCombinedRowsMember(init, userId, rows[i]);
          var k :| 0 <= k < |kept| && kept[k] == rows[i];
          var all := SelectCombinedRows(rows, userId);
          assert all[k] == rows[i] && all[|kept|] == last;
          assert !CombinedMatch(all[|kept|], userId, all[k].policy);
        }
      }
    }
  }

  /** A user whose selected rows did not change keeps its mirror. */
  lemma MirrorFrame(c: Cache, t: Tables, t': Tables, u: int)
    requires Mirrors(c, t, u) && SameForUser(t, t', u)
    ensures Mirrors(c, t', u)
  {
    SelectAdminRowsUnique(t.adminRows, u);
    SelectUnique(t'.adminRows, u);
    SelectCombinedRowsUnique(t.combinedRows, u);
    SelectUniqueCombined(t'.combinedRows, u);
    forall r: AdminRow | r.userId == u ensures r in t'.adminRows <==> r in t.adminRows {
      SelectAdminRowsMember(t.adminRows, u, r);
      SelectAdminRowsMember(t'.adminRows, u, r);
    }
    forall r: CombinedRow | r.userId == u ensures r in t'.combinedRows <==> r in t.combinedRows {
      SelectCombinedRowsMember(t.combinedRows, u, r);
      SelectCombinedRowsMember(t'.combinedRows, u, r);
    }
  }

  lemma CombinedEntries(c: Cache, t: Tables, userId: int, p: string, merged: string, io: Outcome, q: string)
    ensures var c' := WriteCombined(c, t, userId, p, merged, io).cache;
            && c'.admins == c.admins && c'.index == c.index
            && Find(c'.combined, q) == if q == p && io == Done then (if merged == "" then None else Some(merged))
                                       else Find(c.combined, q)
  {
  }

  lemma AdminEntries(c: Cache, t: Tables, userId: int, a: string, p: string, v: string, io: Outcome, x: string,
                     q: string)
    ensures var c' := WriteAdmin(c, t, userId, a, p, v, io).cache;
            && c'.combined == c.combined
            && Lookup(c'.admins, x, q) == if x == a && q == p && io == Done then (if v == "" then None else Some(v))
                                          else Lookup(c.admins, x, q)
  {
    LookupPut(c.admins, a, p, v, x, q);
    LookupDrop(c.admins, a, p, x, q);
  }

  lemma SetPolicyEntries(c: Cache, t: Tables, userId: int, a: string, p: string, v: string, merged: string,
                         combinedIo: Outcome, adminIo: Outcome, x: string, q: string)
    ensures var c' := SetPolicySpec(c, t, userId, a, p, v, merged, combinedIo, adminIo).cache;
            && Lookup(c'.admins, x, q) == (if x == a && q == p && a != "" && p != "" && adminIo == Done
                                           then (if v == "" then None else Some(v)) else Lookup(c.admins, x, q))
            && Find(c'.combined, q) == (if q == p && p != "" && combinedIo == Done
                                        then (if merged == "" then None else Some(merged)) else Find(c.combined, q))
  {
    CombinedEntries(c, t, userId, p, merged, combinedIo, q);
    var first := WriteCombined(c, t, userId, p, merged, combinedIo);
    AdminEntries(first.cache, first.tables, userId, a, p, v, adminIo, x, q);
  }

  lemma SetPolicyKeepsMirrors(s: ManagerState, userId: int, a: string, p: string, v: string, merged: string,
                              combinedIo: Outcome, adminIo: Outcome, u: int)
    requires AllMirror(s)
    ensures var s' := SetPolicyAll(s, userId, a, p, v, merged, LOAD_OK, combinedIo, adminIo).state;
            && Mirrors(CacheOf(s', u), s'.tables, u)
            && CacheOf(s', u) == if u == userId
               then SetPolicySpec(CacheOf(s, u), s.tables, u, a, p, v, merged, combinedIo, adminIo).cache
                 else CacheOf(s, u)
  {
    var c := CacheOf(s, userId);
    var s' := SetPolicyAll(s, userId, a, p, v, merged, LOAD_OK, combinedIo, adminIo).state;
    assert Mirrors(CacheOf(s, u), s.tables, u);
    if u == userId {
      SetPolicyMirrors(c, s.tables, userId, a, p, v, merged, combinedIo, adminIo);
    } else {
      SetPolicyOtherUser(c, s.tables, userId, a, p, v, merged, combinedIo, adminIo, u);
      MirrorFrame(CacheOf(s, u), s.tables, s'.tables, u);
    }
  }

  lemma SetPolicyEntry(s: ManagerState, userId: int, a: string, p: string, v: string, merged: string,
                       combinedIo: Outcome, adminIo: Outcome, u: int, x: string, q: string)
    requires AllMirror(s)
    ensures var s' := SetPolicyAll(s, userId, a, p, v, merged, LOAD_OK, combinedIo, adminIo).state;
            && Value(s', u, x, q) == (if u == userId && x == a && q == p && a != "" && p != "" && adminIo == Done
                                      then (if v == "" then None else Some(v)) else Value(s, u, x, q))
            && Combined(s', u, q) == (if u == userId && q == p && p != "" && combinedIo == Done
                                      then (if merged == "" then None else Some(merged)) else Combined(s, u, q))
  {
    SetPolicyKeepsMirrors(s, userId, a, p, v, merged, combinedIo, adminIo, u);
    if u == userId { SetPolicyEntries(CacheOf(s, u), s.tables, u, a, p, v, merged, combinedIo, adminIo, x, q); }
  }

  /** The manager refines the one map: a SetPolicy moves at most the named entry, to the value written when
      the row call completes, for all users loaded or not; and the entries are the rows. */
  lemma SetPolicyRefinesMap(s: ManagerState, userId: int, a: string, p: string, v: string, merged: string,
                            combinedIo: Outcome, adminIo: Outcome)
    requires AllMirror(s)
    ensures var s' := SetPolicyAll(s, userId, a, p, v, merged, LOAD_OK, combinedIo, adminIo).state;
            && AllMirror(s')
            && (forall u, x, q :: Value(s', u, x, q) ==
                  if u == userId && x == a && q == p && a != "" && p != "" && adminIo == Done
                  then (if v == "" then None else Some(v)) else Value(s, u, x, q))
            && (forall u, q :: Combined(s', u, q) ==
                  if u == userId && q == p && p != "" && combinedIo == Done
                  then (if merged == "" then None else Some(merged)) else Combined(s, u, q))
  {
    var s' := SetPolicyAll(s, userId, a, p, v, merged, LOAD_OK, combinedIo, adminIo).state;
    forall u ensures Mirrors(CacheOf(s', u), s'.tables, u) {
      SetPolicyKeepsMirrors(s, userId, a, p, v, merged, combinedIo, adminIo, u);
    }
    forall u, x, q
      ensures Value(s', u, x, q) == (if u == userId && x == a && q == p && a != "" && p != "" && adminIo == Done
                                     then (if v == "" then None else Some(v)) else Value(s, u, x, q))
    {
      SetPolicyEntry(s, userId, a, p, v, merged, combinedIo, adminIo, u, x, q);
    }
    forall u, q
      ensures Combined(s', u, q) == (if u == userId && q == p && p != "" && combinedIo == Done
                                     then (if merged == "" then None else Some(merged)) else Combined(s, u, q))
    {
      SetPolicyEntry(s, userId, a, p, v, merged, combinedIo, adminIo, u, "", q);
    }
  }

  lemma ReplaceRefinesMap(s: ManagerState, userId: int, a: string, b: string, io: Outcome)
    requires AllMirror(s) && ReplaceIsSafe(CacheOf(s, userId), a, b)
    ensures var s' := ReplaceAllSpec(s, userId, a, b, LOAD_OK, io).state;
            && AllMirror(s')
            && forall u, x, q :: Value(s', u, x, q) ==
                 if u != userId || io != Done || a !in CacheOf(s, userId).admins then Value(s, u, x, q)
                 else if x == b then Value(s, u, a, q)
                 else if x == a then None else Value(s, u, x, q)
  {
    var c := CacheOf(s, userId);
    var s' := ReplaceAllSpec(s, userId, a, b, LOAD_OK, io).state;
    if io == Done { ReplaceKeepsMirror(c, s.tables, userId, a, b); }
    forall u ensures Mirrors(CacheOf(s', u), s'.tables, u) && (u != userId ==> CacheOf(s', u) == CacheOf(s, u)) {
      if u != userId {
        ReplaceOtherUser(c, s.tables, userId, a, b, io, u);
        MirrorFrame(CacheOf(s, u), s.tables, s'.tables, u);
      }
    }
  }

  // ----- Lazy loading cannot be observed -----

  datatype Op =
    | SetPolicyOp(userId: int, admin: string, policy: string, value: string, merged: string,
                  combinedIo: Outcome, adminIo: Outcome)
    | ReplaceOp(userId: int, admin: string, newAdmin: string, io: Outcome)
    | GetPolicyOp(userId: int, admin: string, policy: string)
    | GetAdminsOp(userId: int, policy: string)
    | GetAllOp(userId: int, admin: string)

  datatype Answer = Code(err: ErrCode) | OneValue(value: Option<string>) | Values(values: Option<Items>)

  datatype StepResult = StepResult(state: ManagerState, answer: Answer)

  /** How the first load of each user ends, whenever it comes. */
  type Loads = int -> LoadIo

  function Step(s: ManagerState, op: Op, loads: Loads): StepResult {
    match op
    case SetPolicyOp(u, a, p, v, merged, combinedIo, adminIo) =>
      var r := SetPolicyAll(s, u, a, p, v, merged, loads(u), combinedIo, adminIo);
      StepResult(r.state, Code(r.err))
    case ReplaceOp(u, a, b, io) =>
      var r := ReplaceAllSpec(s, u, a, b, loads(u), io);
      StepResult(r.state, Code(r.err))
    case GetPolicyOp(u, a, p) =>
      var l := Loaded(s, u, loads(u));
      StepResult(l, OneValue(ReadPolicy(l.caches[u], a, p)))
    case GetAdminsOp(u, p) =>
      var l := Loaded(s, u, loads(u));
      StepResult(l, Values(ReadAdmins(l.caches[u], p)))
    case GetAllOp(u, a) =>
      var l := Loaded(s, u, loads(u));
      StepResult(l, Values(ReadAll(l.caches[u], a)))
  }

  function RunState(s: ManagerState, ops: seq<Op>, loads: Loads): ManagerState {
    if ops == [] then s else Step(RunState(s, ops[..|ops| - 1], loads), ops[|ops| - 1], loads).state
  }

  /** The cache a user has, or would get on a first load. */
  function CacheWith(s: ManagerState, userId: int, loads: Loads): Cache {
    if userId in s.caches then s.caches[userId] else LoadCache(s.tables, userId, loads(userId))
  }

  /** Same tables, and every user has or would load the same cache. */
  ghost predicate SameStore(lazy: ManagerState, eager: ManagerState, loads: Loads) {
    lazy.tables == eager.tables && forall u :: CacheWith(lazy, u, loads) == CacheWith(eager, u, loads)
  }

  lemma OtherCacheKept(s: ManagerState, op: Op, loads: Loads, other: int)
    requires other != op.userId
    ensures CacheWith(Step(s, op, loads).state, other, loads) == CacheWith(s, other, loads)
  {
    var u, c := op.userId, CacheWith(s, op.userId, loads);
    if op.SetPolicyOp? {
      SetPolicyOtherUser(c, s.tables, u, op.admin, op.policy, op.value, op.merged, op.combinedIo, op.adminIo, other);
    } else if op.ReplaceOp? {
      ReplaceOtherUser(c, s.tables, u, op.admin, op.newAdmin, op.io, other);
    }
  }

  lemma OwnStepSame(lazy: ManagerState, eager: ManagerState, op: Op, loads: Loads)
    requires lazy.tables == eager.tables && CacheWith(lazy, op.userId, loads) == CacheWith(eager, op.userId, loads)
    ensures Step(lazy, op, loads).answer == Step(eager, op, loads).answer
    ensures var l, e := Step(lazy, op, loads).state, Step(eager, op, loads).state;
            l.tables == e.tables && CacheWith(l, op.userId, loads) == CacheWith(e, op.userId, loads)
  {
  }

  lemma StepSameStore(lazy: ManagerState, eager: ManagerState, op: Op, loads: Loads)
    requires SameStore(lazy, eager, loads)
    ensures Step(lazy, op, loads).answer == Step(eager, op, loads).answer
    ensures SameStore(Step(lazy, op, loads).state, Step(eager, op, loads).state, loads)
  {
    OwnStepSame(lazy, eager, op, loads);
    forall u ensures CacheWith(Step(lazy, op, loads).state, u, loads) ==
      CacheWith(Step(eager, op, loads).state, u, loads)
    {
      if u != op.userId {
        OtherCacheKept(lazy, op, loads, u);
        OtherCacheKept(eager, op, loads, u);
        assert CacheWith(lazy, u, loads) == CacheWith(eager, u, loads);
      }
    }
  }

  /** After any run, a manager first created in the middle answers every call as one loaded at start, when the load of
      each user ends the same way, complete or not. */
  lemma {:induction false} LazyLoadingUnobservable(t: Tables, early: seq<int>, ops: seq<Op>, next: Op, loads: Loads)
    ensures var lazy := ManagerState(t, map[]);
            var eager := InitUsers(lazy, early, seq(|early|, i requires 0 <= i < |early| => loads(early[i])));
            && SameStore(RunState(lazy, ops, loads), RunState(eager, ops, loads), loads)
            && Step(RunState(lazy, ops, loads), next, loads).answer ==
               Step(RunState(eager, ops, loads), next, loads).answer
  {
    var lazy := ManagerState(t, map[]);
    var eager := InitUsers(lazy, early, seq(|early|, i requires 0 <= i < |early| => loads(early[i])));
    if ops == [] {
      EagerStart(t, early, loads);
    } else {
      var last := ops[|ops| - 1];
      LazyLoadingUnobservable(t, early, ops[..|ops| - 1], last, loads);
      StepSameStore(RunState(lazy, ops[..|ops| - 1], loads), RunState(eager, ops[..|ops| - 1], loads), last, loads);
    }
    StepSameStore(RunState(lazy, ops, loads), RunState(eager, ops, loads), next, loads);
  }

  lemma {:induction false} EagerStart(t: Tables, early: seq<int>, loads: Loads)
    ensures var lazy := ManagerState(t, map[]);
            SameStore(lazy, InitUsers(lazy, early, seq(|early|, i requires 0 <= i < |early| => loads(early[i]))), loads)
  {
    if early != [] {
      var n := |early| - 1;
      EagerStart(t, early[..n], loads);
      assert seq(|early|, i requires 0 <= i < |early| => loads(early[i]))[..n] ==
             seq(n, i requires 0 <= i < n => loads(early[..n][i]));
    }
  }

  // ----- Which users the manager knows of -----

  /** At start-up a user other than the default one keeps the manager it has, and gets one by its first load otherwise;
      the default user's manager is built anew each time it is named, and the last one stays. */
  lemma {:induction false} StartUpBuilds(s: ManagerState, userIds: seq<int>, load: seq<LoadIo>, i: nat)
    requires |userIds| == |load| && i < |userIds|
    ensures var s', u := InitUsers(s, userIds, load), userIds[i];
            && s'.tables == s.tables && u in s'.caches
            && (u != DEFAULT_USER_ID && u in s.caches ==> s'.caches[u] == s.caches[u])
            && (u != DEFAULT_USER_ID && u !in s.caches && u !in userIds[..i] ==>
                  s'.caches[u] == LoadCache(s.tables, u, load[i]))
            && (u == DEFAULT_USER_ID && u !in userIds[i + 1..] ==> s'.caches[u] == LoadCache(s.tables, u, load[i]))
  {
    var n := |userIds| - 1;
    var before := InitUsers(s, userIds[..n], load[..n]);
    InitUsersLoaded(s, userIds[..n], load[..n]);
    if i < n {
      assert userIds[..n][..i] == userIds[..i];
      assert userIds[i + 1..] == userIds[..n][i + 1..] + [userIds[n]];
      StartUpBuilds(s, userIds[..n], load[..n], i);
    } else {
      StartUpKeeps(s, userIds[..n], load[..n], userIds[i]);
    }
  }

  lemma {:induction false} StartUpKeeps(s: ManagerState, userIds: seq<int>, load: seq<LoadIo>, u: int)
    requires |userIds| == |load|
    ensures u != DEFAULT_USER_ID && u in s.caches ==>
              u in InitUsers(s, userIds, load).caches && InitUsers(s, userIds, load).caches[u] == s.caches[u]
    ensures u !in s.caches && u !in userIds ==> u !in InitUsers(s, userIds, load).caches
  {
    if userIds != [] {
      var n := |userIds| - 1;
      assert userIds[n] in userIds && forall v :: v in userIds[..n] ==> v in userIds;
      StartUpKeeps(s, userIds[..n], load[..n], u);
    }
  }

  /** The users `GetPolicyUserIds` reports, with the default user, cover every admin-policy row. */
  ghost predicate UsersCovered(s: ManagerState) {
    forall r :: r in s.tables.adminRows ==> r.userId == DEFAULT_USER_ID || r.userId in PolicyUserIds(s)
  }

  lemma {:induction false} InitUsersLoaded(s: ManagerState, userIds: seq<int>, load: seq<LoadIo>)
    requires |userIds| == |load|
    ensures InitUsers(s, userIds, load).caches.Keys == s.caches.Keys + set u | u in userIds
    ensures InitUsers(s, userIds, load).tables == s.tables
  {
    if userIds != [] {
      var n := |userIds| - 1;
      InitUsersLoaded(s, userIds[..n], load[..n]);
      assert userIds == userIds[..n] + [userIds[n]];
    }
  }

  /** Start-up covers every owner exactly when the user-id query succeeded or only the default user owns rows. */
  lemma StartUpCoversIff(t: Tables, queryOk: bool, userIds: seq<int>, load: seq<LoadIo>)
    requires |userIds| == |load|
    requires forall u :: u in userIds <==> queryOk && exists r :: r in t.adminRows && r.userId == u
    ensures UsersCovered(InitUsers(ManagerState(t, map[]), userIds, load)) <==>
            queryOk || forall r :: r in t.adminRows ==> r.userId == DEFAULT_USER_ID
  {
    var s := InitUsers(ManagerState(t, map[]), userIds, load);
    InitUsersLoaded(ManagerState(t, map[]), userIds, load);
    if UsersCovered(s) && !queryOk {
      forall r | r in t.adminRows ensures r.userId == DEFAULT_USER_ID {
        assert r.userId == DEFAULT_USER_ID || r.userId in PolicyUserIds(s);
      }
    }
  }

  lemma SetPolicyRowUsers(c: Cache, t: Tables, userId: int, a: string, p: string, v: string, merged: string,
                          combinedIo: Outcome, adminIo: Outcome, r: AdminRow)
    requires r in SetPolicySpec(c, t, userId, a, p, v, merged, combinedIo, adminIo).tables.adminRows
    ensures r.userId == userId || r in t.adminRows
  {
    UpdateAdminRowsMember(t.adminRows, userId, a, p, v, r);
    DeleteAdminRowsMember(t.adminRows, userId, a, p, r);
  }

  lemma StepKeepsCoverage(s: ManagerState, op: Op, loads: Loads)
    requires UsersCovered(s)
    ensures UsersCovered(Step(s, op, loads).state)
  {
    var s' := Step(s, op, loads).state;
    var l := Loaded(s, op.userId, loads(op.userId));
    forall r | r in s'.tables.adminRows ensures r.userId == DEFAULT_USER_ID || r.userId in PolicyUserIds(s') {
      if op.SetPolicyOp? {
        SetPolicyRowUsers(l.caches[op.userId], s.tables, op.userId, op.admin, op.policy, op.value, op.merged,
                          op.combinedIo, op.adminIo, r);
      } else if op.ReplaceOp? {
        RenameRowsMember(s.tables.adminRows, op.userId, op.admin, op.newAdmin, r);
      }
    }
  }

  lemma {:induction false} RunKeepsCoverage(s: ManagerState, ops: seq<Op>, loads: Loads)
    requires UsersCovered(s)
    ensures UsersCovered(RunState(s, ops, loads))
  {
    if ops != [] {
      RunKeepsCoverage(s, ops[..|ops| - 1], loads);
      StepKeepsCoverage(RunState(s, ops[..|ops| - 1], loads), ops[|ops| - 1], loads);
    }
  }
}
