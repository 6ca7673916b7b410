/** The calls in the order of their stripes. From exact indexes and without a failed write of a value the final store is
    also that of the saving calls run in the order in which they took their stripes. Two saves that cross show exactly
    when one clashes with the other. */
module StripeOrder {
  import opened PolicyModel
  import opened StoreLaws
  import opened ManagerModel
  import opened PipelineModel
  import opened ConflictGroups
  import opened PolicyCells
  import opened Serialisability

  ghost predicate Good(s: ManagerState, host: Host) {
    forall u :: GoodCache(CacheWith(s, u, host.loads))
  }

  lemma {:induction false} LoadIsGood(rows: seq<AdminRow>)
    ensures NoEmptyInner(LoadAdmins(map[], rows)) && Transposed(LoadAdmins(map[], rows), LoadIndex(map[], rows))
  {
    if rows != [] {
      var init, last := rows[..|rows| - 1], rows[|rows| - 1];
      var m, n := LoadAdmins(map[], init), LoadIndex(map[], init);
      LoadIsGood(init);
      PutDropKeepFilled(m, last.admin, last.policy, last.value);
      PutDropKeepFilled(n, last.policy, last.admin, last.value);
      assert Lookup(m, last.admin, last.policy) == Lookup(n, last.policy, last.admin);
      forall a, p ensures Lookup(LoadAdmins(map[], rows), a, p) == Lookup(LoadIndex(map[], rows), p, a) {
        LookupPut(m, last.admin, last.policy, last.value, a, p);
        LookupPut(n, last.policy, last.admin, last.value, p, a);
      }
    }
  }

  /** A first load gives an exact index, so only the loaded caches matter. */
  lemma GoodIff(s: ManagerState, host: Host)
    ensures Good(s, host) <==> forall u :: u in s.caches ==> GoodCache(s.caches[u])
  {
    forall u | u !in s.caches ensures GoodCache(CacheWith(s, u, host.loads)) {
      LoadIsGood(SelectAdminRows(s.tables.adminRows, u));
    }
    if Good(s, host) {
      forall u | u in s.caches ensures GoodCache(s.caches[u]) { assert GoodCache(CacheWith(s, u, host.loads)); }
    }
  }

  /** The call comes to write a value of an administrator, and the write fails. */
  ghost predicate FailedWrite(host: Host, r: Request, s: ManagerState) {
    && HostOk(host) && Saving(host, r)
    && var h := DecideIn(host, r, s);
       h.ok && h.isChanged && r.admin != "" && h.policyData != "" && r.adminIo == Failed
  }

  /** Run one at a time in this order, no call fails to write a value. */
  ghost predicate Clean(host: Host, reqs: seq<Request>, s: ManagerState, log: seq<nat>)
    requires Calls(log, |reqs|)
  {
    log == [] ||
    (var init, last := log[..|log| - 1], log[|log| - 1];
     Clean(host, reqs, s, init) && !FailedWrite(host, reqs[last], Serial(host, reqs, s, init)))
  }

  lemma {:induction false} NoFailureIsClean(host: Host, reqs: seq<Request>, s: ManagerState, log: seq<nat>)
    requires Calls(log, |reqs|) && forall k :: 0 <= k < |log| ==> reqs[log[k]].adminIo != Failed
    ensures Clean(host, reqs, s, log)
  {
    if log != [] { NoFailureIsClean(host, reqs, s, log[..|log| - 1]); }
  }

  // ----- A call and the cells of its own group -----

  /** The one cell the call may save, as a function of the call and the group's cells. */
  ghost function SavedCell(host: Host, r: Request, cell: Cell, h: Handled): Cell
    requires r.code in host.plugins
  {
    var plugin := host.plugins[r.code].base;
    if h.ok && plugin.needSave && h.isChanged
    then NewCell(cell, r.userId, r.admin, plugin.name, h.policyData, h.mergeData, r.combinedIo, r.adminIo)
    else cell
  }

  lemma SaveIs(s: ManagerState, host: Host, r: Request, h: Handled)
    requires HostOk(host) && r.code in host.plugins && Good(s, host)
    requires !(host.plugins[r.code].base.needSave && h.isChanged && r.admin != "" && h.policyData != "" &&
               r.adminIo == Failed)
    ensures Good(Saved(s, host, r, h), host)
    ensures h.ok ==> var p := host.plugins[r.code].base.name;
            CellAt(Saved(s, host, r, h), host, r.userId, p) == SavedCell(host, r, CellAt(s, host, r.userId, p), h)
  {
    var plugin, c := host.plugins[r.code].base, CacheWith(s, r.userId, host.loads);
    if plugin.needSave && h.isChanged {
      GoodAfter(c, s.tables, r.userId, r.admin, plugin.name, h.policyData, h.mergeData, r.combinedIo, r.adminIo);
      OwnCellAfter(c, s.tables, r.userId, r.admin, plugin.name, h.policyData, h.mergeData, r.combinedIo, r.adminIo);
      forall w ensures GoodCache(CacheWith(Saved(s, host, r, h), w, host.loads)) {
        CacheAfterSave(s, host.loads, r.userId, r.admin, plugin.name, h.policyData, h.mergeData, r.combinedIo,
                       r.adminIo, w);
      }
      CacheAfterSave(s, host.loads, r.userId, r.admin, plugin.name, h.policyData, h.mergeData, r.combinedIo, r.adminIo,
        r.userId);
    }
  }

  lemma LoadedGood(s: ManagerState, host: Host, u: int)
    requires Good(s, host)
    ensures Good(Loaded(s, u, host.loads(u)), host)
    ensures forall w, p :: CellAt(Loaded(s, u, host.loads(u)), host, w, p) == CellAt(s, host, w, p)
  {
    var l := Loaded(s, u, host.loads(u));
    LoadedIsSame(s, u, host.loads);
    forall w ensures CacheWith(l, w, host.loads) == CacheWith(s, w, host.loads) {}
  }

  /** A call keeps the indexes exact, and what it makes of its cell depends on the cells of its group only. */
  lemma AtomicCell(s: ManagerState, host: Host, r: Request)
    requires HostOk(host) && Saving(host, r) && Good(s, host) && !FailedWrite(host, r, s)
    ensures Good(Atomic(s, host, r).state, host)
    ensures var p := host.plugins[r.code].base.name;
            CellAt(Atomic(s, host, r).state, host, r.userId, p) ==
            SavedCell(host, r, CellAt(s, host, r.userId, p), DecideIn(host, r, s))
  {
    AtomicIs(s, host, r);
    LoadedGood(s, host, r.userId);
    if DecideIn(host, r, s).ok { SaveIs(Loaded(s, r.userId, host.loads(r.userId)), host, r, DecideIn(host, r, s)); }
  }

  lemma AtomicOtherCell(s: ManagerState, host: Host, r: Request, w: int, q: string)
    requires HostOk(host) && Saving(host, r) && Good(s, host)
    requires w != r.userId || q != host.plugins[r.code].base.name
    ensures CellAt(Atomic(s, host, r).state, host, w, q) == CellAt(s, host, w, q)
  {
    AtomicIs(s, host, r);
    LoadedGood(s, host, r.userId);
    OtherCellKept(Loaded(s, r.userId, host.loads(r.userId)), host, r, DecideIn(host, r, s), w, q);
  }

  lemma ViewAt(s: ManagerState, t: ManagerState, host: Host, g: int, u: int, p: string)
    requires ViewOf(s, host, g) == ViewOf(t, host, g) && PolicyGroup(host, p) == g
    ensures CellAt(s, host, u, p) == CellAt(t, host, u, p)
  {
    assert ViewOf(s, host, g)[(u, p)] == ViewOf(t, host, g)[(u, p)];
  }

  /** The decision of a call and its effect on its group depend on the cells of the group only. */
  lemma AtomicLocal(s: ManagerState, t: ManagerState, host: Host, r: Request)
    requires HostOk(host) && Saving(host, r) && Good(s, host) && Good(t, host) && !FailedWrite(host, r, s)
    requires ViewOf(s, host, GroupOf(r.code)) == ViewOf(t, host, GroupOf(r.code))
    ensures DecideIn(host, r, s) == DecideIn(host, r, t) && !FailedWrite(host, r, t)
    ensures ViewOf(Atomic(s, host, r).state, host, GroupOf(r.code)) ==
            ViewOf(Atomic(t, host, r).state, host, GroupOf(r.code))
  {
    var g, name := GroupOf(r.code), host.plugins[r.code].base.name;
    PolicyGroupIs(host, r.code);
    AtomicCell(s, host, r);
    AtomicCell(t, host, r);
    forall k: (int, string) | PolicyGroup(host, k.1) == g
      ensures CellAt(Atomic(s, host, r).state, host, k.0, k.1) == CellAt(Atomic(t, host, r).state, host, k.0, k.1)
    {
      ViewAt(s, t, host, g, k.0, k.1);
      if k.0 != r.userId || k.1 != name {
        AtomicOtherCell(s, host, r, k.0, k.1);
        AtomicOtherCell(t, host, r, k.0, k.1);
      }
    }
  }

  // ----- A run and its groups -----

  ghost predicate AllSaving(host: Host, reqs: seq<Request>, log: seq<nat>) {
    Calls(log, |reqs|) && forall k :: 0 <= k < |log| ==> Saving(host, reqs[log[k]])
  }

  lemma {:induction false} InGroupSaving(host: Host, reqs: seq<Request>, log: seq<nat>, g: int)
    requires AllSaving(host, reqs, log)
    ensures AllSaving(host, reqs, InGroup(reqs, log, g))
  {
    if log != [] { InGroupSaving(host, reqs, log[..|log| - 1], g); }
  }

  lemma CleanNext(host: Host, reqs: seq<Request>, s: ManagerState, log: seq<nat>, i: nat)
    requires Calls(log, |reqs|) && i < |reqs|
    ensures Calls(log + [i], |reqs|)
    ensures Clean(host, reqs, s, log + [i]) <==>
            Clean(host, reqs, s, log) && !FailedWrite(host, reqs[i], Serial(host, reqs, s, log))
  {
    assert (log + [i])[..|log|] == log;
  }

  /** What one group sees of a run is what it sees of its own calls run alone. */
  lemma {:induction false} ProjectRun(host: Host, reqs: seq<Request>, s: ManagerState, log: seq<nat>, g: int)
    requires HostOk(host) && AllSaving(host, reqs, log) && Good(s, host) && Clean(host, reqs, s, log)
    ensures var own := InGroup(reqs, log, g);
            && Clean(host, reqs, s, own) && Good(Serial(host, reqs, s, log), host) &&
               Good(Serial(host, reqs, s, own), host)
            && ViewOf(Serial(host, reqs, s, log), host, g) == ViewOf(Serial(host, reqs, s, own), host, g)
  {
    if log != [] {
      var init, last := log[..|log| - 1], log[|log| - 1];
      ProjectRun(host, reqs, s, init, g);
      var before, alone := Serial(host, reqs, s, init), Serial(host, reqs, s, InGroup(reqs, init, g));
      AtomicCell(before, host, reqs[last]);
      if GroupOf(reqs[last].code) == g {
        AtomicLocal(before, alone, host, reqs[last]);
        AtomicCell(alone, host, reqs[last]);
        CleanNext(host, reqs, s, InGroup(reqs, init, g), last);
        SerialNext(host, reqs, s, InGroup(reqs, init, g), last);
      } else {
        AtomicFrame(before, host, reqs[last], g);
      }
    }
  }

  /** A run is clean when each group's calls run alone are. */
  lemma {:induction false} MergeClean(host: Host, reqs: seq<Request>, s: ManagerState, log: seq<nat>)
    requires HostOk(host) && AllSaving(host, reqs, log) && Good(s, host)
    requires forall g :: Clean(host, reqs, s, InGroup(reqs, log, g))
    ensures Clean(host, reqs, s, log)
  {
    if log != [] {
      var init, last := log[..|log| - 1], log[|log| - 1];
      var g := GroupOf(reqs[last].code);
      forall h ensures Clean(host, reqs, s, InGroup(reqs, init, h)) {
        assert Clean(host, reqs, s, InGroup(reqs, log, h));
        CleanNext(host, reqs, s, InGroup(reqs, init, h), last);
      }
      MergeClean(host, reqs, s, init);
      ProjectRun(host, reqs, s, init, g);
      assert Clean(host, reqs, s, InGroup(reqs, log, g));
      CleanNext(host, reqs, s, InGroup(reqs, init, g), last);
      SameDecision(host, reqs[last], Serial(host, reqs, s, init), Serial(host, reqs, s, InGroup(reqs, init, g)));
    }
  }

  lemma SameDecision(host: Host, r: Request, s: ManagerState, t: ManagerState)
    requires HostOk(host) && Saving(host, r)
    requires ViewOf(s, host, GroupOf(r.code)) == ViewOf(t, host, GroupOf(r.code))
    ensures DecideIn(host, r, s) == DecideIn(host, r, t)
    ensures FailedWrite(host, r, s) <==> FailedWrite(host, r, t)
  {
  }

  // ----- Two orders that agree in every group -----

  lemma SameByGroup(host: Host, reqs: seq<Request>, s: ManagerState, log: seq<nat>, saves: seq<nat>)
    requires HostOk(host) && Good(s, host) && AllSaving(host, reqs, log) && AllSaving(host, reqs, saves)
    requires (forall g :: InGroup(reqs, log, g) == InGroup(reqs, saves, g)) && Clean(host, reqs, s, saves)
    ensures Clean(host, reqs, s, log)
    ensures Good(Serial(host, reqs, s, log), host) && Good(Serial(host, reqs, s, saves), host)
    ensures forall g :: ViewOf(Serial(host, reqs, s, log), host, g) == ViewOf(Serial(host, reqs, s, saves), host, g)
  {
    forall g ensures Clean(host, reqs, s, InGroup(reqs, log, g)) { ProjectRun(host, reqs, s, saves, g); }
    MergeClean(host, reqs, s, log);
    ProjectRun(host, reqs, s, log, 0);
    ProjectRun(host, reqs, s, saves, 0);
    forall g ensures ViewOf(Serial(host, reqs, s, log), host, g) == ViewOf(Serial(host, reqs, s, saves), host, g) {
      ProjectRun(host, reqs, s, log, g);
      ProjectRun(host, reqs, s, saves, g);
    }
  }

  /** Every user's caches are equal, and so are the rows up to their order in the tables. */
  ghost predicate SameContents(s: ManagerState, t: ManagerState, host: Host) {
    && (forall u :: CacheWith(s, u, host.loads) == CacheWith(t, u, host.loads))
    && multiset(s.tables.adminRows) == multiset(t.tables.adminRows)
    && multiset(s.tables.combinedRows) == multiset(t.tables.combinedRows)
  }

  lemma SameCellsSameCache(c: Cache, d: Cache)
    requires GoodCache(c) && GoodCache(d)
    requires forall p :: Holders(c, p) == Holders(d, p) && Find(c.combined, p) == Find(d.combined, p)
    ensures c == d
  {
    forall p, a ensures Lookup(c.index, p, a) == Lookup(d.index, p, a) { assert Holders(c, p) == Holders(d, p); }
    EntriesDetermine(c.index, d.index);
    forall p, v ensures Find(c.combined, p) == Some(v) <==> Find(d.combined, p) == Some(v) {
      assert Holders(c, p) == Holders(d, p);
    }
    ItemsDetermine(c.combined, d.combined);
    forall a, p ensures Lookup(c.admins, a, p) == Lookup(d.admins, a, p) {
      assert Lookup(c.admins, a, p) == Lookup(c.index, p, a) && Lookup(d.admins, a, p) == Lookup(d.index, p, a);
    }
    EntriesDetermine(c.admins, d.admins);
  }

  lemma SameViewsSameContents(s: ManagerState, t: ManagerState, host: Host)
    requires Good(s, host) && Good(t, host) && forall g :: ViewOf(s, host, g) == ViewOf(t, host, g)
    ensures SameContents(s, t, host)
  {
    forall u, p ensures CellAt(s, host, u, p) == CellAt(t, host, u, p) {
      ViewAt(s, t, host, PolicyGroup(host, p), u, p);
    }
    forall u ensures CacheWith(s, u, host.loads) == CacheWith(t, u, host.loads) {
      var c, d := CacheWith(s, u, host.loads), CacheWith(t, u, host.loads);
      forall p ensures Holders(c, p) == Holders(d, p) && Find(c.combined, p) == Find(d.combined, p) {
        assert CellAt(s, host, u, p) == CellAt(t, host, u, p);
      }
      SameCellsSameCache(c, d);
    }
    forall r ensures multiset(s.tables.adminRows)[r] == multiset(t.tables.adminRows)[r] {
      RowsFromCells(s.tables.adminRows, r);
      RowsFromCells(t.tables.adminRows, r);
      assert CellAt(s, host, r.userId, r.policy) == CellAt(t, host, r.userId, r.policy);
    }
    forall r ensures multiset(s.tables.combinedRows)[r] == multiset(t.tables.combinedRows)[r] {
      CombinedFromCells(s.tables.combinedRows, r);
      CombinedFromCells(t.tables.combinedRows, r);
      assert CellAt(s, host, r.userId, r.policy) == CellAt(t, host, r.userId, r.policy);
    }
  }

  // ----- What stands before a call -----

  lemma {:induction false} InGroupMembers(reqs: seq<Request>, log: seq<nat>, g: int, i: nat)
    requires Calls(log, |reqs|) && i !in log
    ensures i !in InGroup(reqs, log, g)
  {
    if log != [] { InGroupMembers(reqs, log[..|log| - 1], g, i); }
  }

  /** The calls of a group: those before call `k`, the call itself, and those after. */
  lemma {:induction false} InGroupSplit(reqs: seq<Request>, log: seq<nat>, k: nat) returns (rest: seq<nat>)
    requires Calls(log, |reqs|) && k < |log|
    ensures var g := GroupOf(reqs[log[k]].code);
            InGroup(reqs, log, g) == InGroup(reqs, log[..k], g) + [log[k]] + rest
  {
    var init, last, g := log[..|log| - 1], log[|log| - 1], GroupOf(reqs[log[k]].code);
    if k == |log| - 1 {
      rest := [];
      assert InGroup(reqs, log, g) == InGroup(reqs, init, g) + [last] + [];
    } else {
      var before := InGroupSplit(reqs, init, k);
      assert init[..k] == log[..k];
      rest := before + if GroupOf(reqs[last].code) == g then [last] else [];
      assert InGroup(reqs, log, g) == InGroup(reqs, log[..k], g) + [log[k]] + rest;
    }
  }

  lemma SplitOnce<T>(a: seq<T>, b: seq<T>, c: seq<T>, d: seq<T>, x: T)
    requires a + [x] + b == c + [x] + d && x !in a && x !in c
    ensures a == c
  {
    assert (a + [x] + b)[|a|] == x && (c + [x] + d)[|c|] == x;
    assert a == (a + [x] + b)[..|a|] && c == (c + [x] + d)[..|c|];
  }

  ghost predicate Distinct(log: seq<nat>) {
    forall j, k :: 0 <= j < k < |log| ==> log[j] != log[k]
  }

  /** The same calls of its group stand before a call in both orders. */
  lemma SameBefore(reqs: seq<Request>, log: seq<nat>, saves: seq<nat>, k: nat, j: nat)
    requires Calls(log, |reqs|) && Calls(saves, |reqs|) && Distinct(log) && Distinct(saves)
    requires k < |log| && j < |saves| && log[k] == saves[j]
    requires forall g :: InGroup(reqs, log, g) == InGroup(reqs, saves, g)
    ensures var g := GroupOf(reqs[log[k]].code); InGroup(reqs, log[..k], g) == InGroup(reqs, saves[..j], g)
  {
    var g := GroupOf(reqs[log[k]].code);
    var rest := InGroupSplit(reqs, log, k);
    var others := InGroupSplit(reqs, saves, j);
    InGroupMembers(reqs, log[..k], g, log[k]);
    InGroupMembers(reqs, saves[..j], g, log[k]);
    SplitOnce(InGroup(reqs, log[..k], g), rest, InGroup(reqs, saves[..j], g), others, log[k]);
  }

  lemma {:induction false} CleanPrefix(host: Host, reqs: seq<Request>, s: ManagerState, log: seq<nat>, k: nat)
    requires Calls(log, |reqs|) && k <= |log| && Clean(host, reqs, s, log)
    ensures Clean(host, reqs, s, log[..k])
  {
    if k < |log| {
      CleanPrefix(host, reqs, s, log[..|log| - 1], k);
      assert log[..|log| - 1][..k] == log[..k];
    } else {
      assert log[..k] == log;
    }
  }

  lemma SameGroupSameView(host: Host, reqs: seq<Request>, s: ManagerState, a: seq<nat>, b: seq<nat>, g: int)
    requires HostOk(host) && Good(s, host) && AllSaving(host, reqs, a) && AllSaving(host, reqs, b)
    requires Clean(host, reqs, s, a) && Clean(host, reqs, s, b) && InGroup(reqs, a, g) == InGroup(reqs, b, g)
    ensures ViewOf(Serial(host, reqs, s, a), host, g) == ViewOf(Serial(host, reqs, s, b), host, g)
  {
    ProjectRun(host, reqs, s, a, g);
    ProjectRun(host, reqs, s, b, g);
  }

  lemma SameViewSameReply(host: Host, r: Request, s: ManagerState, t: ManagerState)
    requires HostOk(host) && Saving(host, r)
    requires ViewOf(s, host, GroupOf(r.code)) == ViewOf(t, host, GroupOf(r.code))
    ensures Atomic(s, host, r).ok == Atomic(t, host, r).ok
  {
    AtomicIs(s, host, r);
    AtomicIs(t, host, r);
  }

  /** The reply of the call at place `k` when the calls run one at a time in this order. */
  ghost predicate Reply(host: Host, reqs: seq<Request>, s: ManagerState, order: seq<nat>, k: nat)
    requires Calls(order, |reqs|) && k < |order|
  {
    Atomic(Serial(host, reqs, s, order[..k]), host, reqs[order[k]]).ok
  }

  lemma SameReply(host: Host, reqs: seq<Request>, s: ManagerState, log: seq<nat>, saves: seq<nat>, k: nat, j: nat)
    requires HostOk(host) && Good(s, host) && AllSaving(host, reqs, log) && AllSaving(host, reqs, saves)
    requires Distinct(log) && Distinct(saves) && k < |log| && j < |saves| && log[k] == saves[j]
    requires forall g :: InGroup(reqs, log, g) == InGroup(reqs, saves, g)
    requires Clean(host, reqs, s, log) && Clean(host, reqs, s, saves)
    ensures Reply(host, reqs, s, log, k) == Reply(host, reqs, s, saves, j)
  {
    var r := reqs[log[k]];
    SameBefore(reqs, log, saves, k, j);
    CleanPrefix(host, reqs, s, log, k);
    CleanPrefix(host, reqs, s, saves, j);
    SameGroupSameView(host, reqs, s, log[..k], saves[..j], GroupOf(r.code));
    SameViewSameReply(host, r, Serial(host, reqs, s, log[..k]), Serial(host, reqs, s, saves[..j]));
  }

  // ----- The theorem -----

  ghost predicate CleanRun(host: Host, reqs: seq<Request>, s: ManagerState, log: seq<nat>) {
    Calls(log, |reqs|) && Clean(host, reqs, s, log)
  }

  lemma OrdersAre(host: Host, reqs: seq<Request>, log: seq<nat>, saves: seq<nat>)
    requires SameOrderByGroup(host, reqs, log, saves)
    ensures AllSaving(host, reqs, log) && AllSaving(host, reqs, saves) && Distinct(log) && Distinct(saves)
    ensures forall k :: 0 <= k < |log| ==> log[k] in saves
  {
    forall k | 0 <= k < |log| ensures Saving(host, reqs[log[k]]) && log[k] in saves { assert log[k] in log; }
    forall k | 0 <= k < |saves| ensures Saving(host, reqs[saves[k]]) { assert saves[k] in saves; }
  }

  /** Each call of the run got the reply it gets when the calls run in this order. */
  ghost predicate RepliesOf(host: Host, reqs: seq<Request>, s: ManagerState, w: World, order: seq<nat>) {
    && |w.pcs| == |reqs| && Calls(order, |reqs|) && AllFinished(w)
    && forall k :: 0 <= k < |order| ==> w.pcs[order[k]].ok == Reply(host, reqs, s, order, k)
  }

  lemma PlaceOf(host: Host, reqs: seq<Request>, log: seq<nat>, saves: seq<nat>, k: nat) returns (j: nat)
    requires SameOrderByGroup(host, reqs, log, saves) && k < |log|
    ensures j < |saves| && saves[j] == log[k]
  {
    OrdersAre(host, reqs, log, saves);
    j :| 0 <= j < |saves| && saves[j] == log[k];
  }

  lemma SameReplies(host: Host, reqs: seq<Request>, s: ManagerState, w: World)
    requires HostOk(host) && Good(s, host) && SameOrderByGroup(host, reqs, w.log, w.saves)
    requires Clean(host, reqs, s, w.log) && Clean(host, reqs, s, w.saves) && RepliesOf(host, reqs, s, w, w.saves)
    ensures RepliesOf(host, reqs, s, w, w.log)
  {
    OrdersAre(host, reqs, w.log, w.saves);
    forall k | 0 <= k < |w.log| ensures w.pcs[w.log[k]].ok == Reply(host, reqs, s, w.log, k) {
      var j := PlaceOf(host, reqs, w.log, w.saves, k);
      SameReply(host, reqs, s, w.log, w.saves, k, j);
    }
  }

  /** From exact indexes and without a failed write of a value: when every call of any interleaving is finished, every
      user's caches are those of the saving calls run one at a time in the order of their stripes, so are the rows up to
      their order, and each call got the reply it gets there. */
  lemma SerialisableByStripes(host: Host, reqs: seq<Request>, s: ManagerState, schedule: seq<nat>)
    requires HostOk(host) && Calls(schedule, |reqs|) && Good(s, host)
    requires AllFinished(RunSchedule(host, reqs, s, schedule))
    requires CleanRun(host, reqs, s, RunSchedule(host, reqs, s, schedule).saves)
    ensures var w := RunSchedule(host, reqs, s, schedule);
            && CleanRun(host, reqs, s, w.log)
            && SameContents(w.store, Serial(host, reqs, s, w.log), host)
            && RepliesOf(host, reqs, s, w, w.log)
  {
    var w := RunSchedule(host, reqs, s, schedule);
    Serialisable(host, reqs, s, schedule);
    OrdersAre(host, reqs, w.log, w.saves);
    SameByGroup(host, reqs, s, w.log, w.saves);
    SameViewsSameContents(Serial(host, reqs, s, w.saves), Serial(host, reqs, s, w.log), host);
    SameReplies(host, reqs, s, w);
  }

  // ----- Two calls that cross -----

  /** What a call saves. */
  function OpOf(r: Request, policy: string, saving: bool, h: Handled): SetOp {
    if h.ok && saving && h.isChanged
    then SetOp(r.admin, policy, h.policyData, h.mergeData, r.combinedIo, r.adminIo)
    else SetOp(r.admin, policy, h.policyData, h.mergeData, Unavailable, Unavailable)
  }

  ghost function OpAt(s: ManagerState, host: Host, r: Request): SetOp
    requires HostOk(host) && r.code in host.plugins
  {
    var plugin := host.plugins[r.code].base;
    OpOf(r, plugin.name, plugin.needSave, DecideIn(host, r, s))
  }

  /** A call is one save of the user's cache. */
  lemma AtomicIsSave(s: ManagerState, host: Host, r: Request)
    requires HostOk(host) && r.code in host.plugins
    ensures var t, saved := Atomic(s, host, r).state,
                            Save(CacheWith(s, r.userId, host.loads), s.tables, r.userId, OpAt(s, host, r));
            CacheWith(t, r.userId, host.loads) == saved.cache && t.tables == saved.tables
  {
    var u, op, h := r.userId, OpAt(s, host, r), DecideIn(host, r, s);
    var l := Loaded(s, u, host.loads(u));
    AtomicIs(s, host, r);
    LoadedIsSame(s, u, host.loads);
    if h.ok && host.plugins[r.code].base.needSave && h.isChanged {
      CacheAfterSave(l, host.loads, u, op.admin, op.policy, op.value, op.merged, op.combinedIo, op.adminIo, u);
    }
  }

  /** Two calls of one user and of different groups, run one after the other, are their two saves, each as decided
      before both. */
  lemma TwoAtomic(s: ManagerState, host: Host, x: Request, y: Request)
    requires HostOk(host) && x.code in host.plugins && y.code in host.plugins && x.userId == y.userId
    requires GroupOf(x.code) != GroupOf(y.code)
    ensures CacheWith(Atomic(Atomic(s, host, x).state, host, y).state, x.userId, host.loads) ==
            SaveBoth(CacheWith(s, x.userId, host.loads), s.tables, x.userId, OpAt(s, host, x), OpAt(s, host, y)).cache
  {
    var mid := Atomic(s, host, x).state;
    AtomicFrame(s, host, x, GroupOf(y.code));
    AtomicIsSave(s, host, x);
    AtomicIsSave(mid, host, y);
    assert DecideIn(host, y, mid) == DecideIn(host, y, s);
  }

  lemma RunNext(host: Host, reqs: seq<Request>, s: ManagerState, schedule: seq<nat>, i: nat)
    requires Calls(schedule, |reqs|) && i < |reqs|
    ensures Calls(schedule + [i], |reqs|)
    ensures RunSchedule(host, reqs, s, schedule + [i]) == StepOf(host, reqs, RunSchedule(host, reqs, s, schedule), i)
  {
    assert (schedule + [i])[..|schedule|] == schedule;
  }

  /** A call whose stripe is free takes it in two steps. */
  lemma TakeStripe(host: Host, reqs: seq<Request>, s: ManagerState, schedule: seq<nat>, i: nat) returns (more: seq<nat>)
    requires Calls(schedule, |reqs|) && i < |reqs| && Saving(host, reqs[i])
    requires RunSchedule(host, reqs, s, schedule).pcs[i].Waiting?
    requires GroupOf(reqs[i].code) !in RunSchedule(host, reqs, s, schedule).stripes
    ensures Calls(more, |reqs|)
    ensures var w, w' := RunSchedule(host, reqs, s, schedule), RunSchedule(host, reqs, s, more);
            && w'.pcs == w.pcs[i := Ready] && w'.stripes == w.stripes[GroupOf(reqs[i].code) := i]
            && w'.log == w.log + [i] && w'.saves == w.saves
  {
    RunNext(host, reqs, s, schedule, i);
    RunNext(host, reqs, s, schedule + [i], i);
    assert RunSchedule(host, reqs, s, schedule + [i]) == Move(RunSchedule(host, reqs, s, schedule), i, Pinned);
    more := schedule + [i] + [i];
  }

  lemma InsideStep(host: Host, reqs: seq<Request>, w: World, i: nat)
    requires |w.pcs| == |reqs| && i < |reqs| && Saving(host, reqs[i]) && Inside(w.pcs[i])
    ensures var w' := StepOf(host, reqs, w, i);
            && |w'.pcs| == |w.pcs| && w'.pcs == w.pcs[i := w'.pcs[i]] && w'.log == w.log
            && (Inside(w'.pcs[i]) || w'.pcs[i].Finished?) && Left(w'.pcs[i]) < Left(w.pcs[i])
            && w'.saves == (if !Past(w.pcs[i]) && Past(w'.pcs[i]) then w.saves + [i] else w.saves)
            && (Past(w.pcs[i]) ==> Past(w'.pcs[i]))
  {
  }

  /** A call that holds its stripe can go on to its end with the others standing still. */
  lemma {:induction false} FinishCall(host: Host, reqs: seq<Request>, s: ManagerState, schedule: seq<nat>, i: nat)
    returns (more: seq<nat>)
    requires Calls(schedule, |reqs|) && i < |reqs| && Saving(host, reqs[i])
    requires Inside(RunSchedule(host, reqs, s, schedule).pcs[i]) ||
             RunSchedule(host, reqs, s, schedule).pcs[i].Finished?
    ensures Calls(more, |reqs|)
    ensures var w, w' := RunSchedule(host, reqs, s, schedule), RunSchedule(host, reqs, s, more);
            && w'.pcs == w.pcs[i := w'.pcs[i]] && w'.pcs[i].Finished? && w'.log == w.log
            && w'.saves == if Past(w.pcs[i]) then w.saves else w.saves + [i]
    decreases Left(RunSchedule(host, reqs, s, schedule).pcs[i])
  {
    var w := RunSchedule(host, reqs, s, schedule);
    if w.pcs[i].Finished? {
      more := schedule;
    } else {
      InsideStep(host, reqs, w, i);
      RunNext(host, reqs, s, schedule, i);
      more := FinishCall(host, reqs, s, schedule + [i], i);
    }
  }

  ghost predicate BothReady(host: Host, reqs: seq<Request>, s: ManagerState, schedule: seq<nat>) {
    && |reqs| == 2 && Calls(schedule, 2)
    && var w := RunSchedule(host, reqs, s, schedule);
       w.pcs == [Ready, Ready] && w.log == [0, 1] && w.saves == []
  }

  lemma NoSteps(host: Host, reqs: seq<Request>, s: ManagerState) returns (schedule: seq<nat>)
    ensures Calls(schedule, |reqs|)
    ensures RunSchedule(host, reqs, s, schedule) == World(s, seq(|reqs|, i => Waiting), map[], [], [])
  {
    schedule := [];
  }

  lemma TakeBoth(host: Host, reqs: seq<Request>, s: ManagerState) returns (schedule: seq<nat>)
    requires |reqs| == 2 && Saving(host, reqs[0]) && Saving(host, reqs[1])
    requires GroupOf(reqs[0].code) != GroupOf(reqs[1].code)
    ensures BothReady(host, reqs, s, schedule)
  {
    var start := NoSteps(host, reqs, s);
    var first := TakeStripe(host, reqs, s, start, 0);
    schedule := TakeStripe(host, reqs, s, first, 1);
  }

  /** Call 0 took its stripe first and call 1 saved first. */
  ghost predicate Crossed(host: Host, reqs: seq<Request>, s: ManagerState, schedule: seq<nat>) {
    && |reqs| == 2 && Calls(schedule, 2)
    && var w := RunSchedule(host, reqs, s, schedule);
       AllFinished(w) && w.log == [0, 1] && w.saves == [1, 0]
  }

  /** Two calls of different groups can always cross. */
  lemma Cross(host: Host, reqs: seq<Request>, s: ManagerState) returns (schedule: seq<nat>)
    requires |reqs| == 2 && Saving(host, reqs[0]) && Saving(host, reqs[1])
    requires GroupOf(reqs[0].code) != GroupOf(reqs[1].code)
    ensures Crossed(host, reqs, s, schedule)
  {
    var taken := TakeBoth(host, reqs, s);
    var one := FinishCall(host, reqs, s, taken, 1);
    schedule := FinishCall(host, reqs, s, one, 0);
  }

  lemma SerialTwo(host: Host, reqs: seq<Request>, s: ManagerState, i: nat, j: nat)
    requires i < |reqs| && j < |reqs|
    ensures Calls([i, j], |reqs|)
    ensures Serial(host, reqs, s, [i, j]) == Atomic(Atomic(s, host, reqs[i]).state, host, reqs[j]).state
  {
    SerialNext(host, reqs, s, [], i);
    SerialNext(host, reqs, s, [i], j);
    assert [] + [i] == [i] && [i] + [j] == [i, j];
  }

  /** The user's cache after two calls, `x` first. */
  ghost function AfterBoth(s: ManagerState, host: Host, x: Request, y: Request): Cache {
    CacheWith(Atomic(Atomic(s, host, x).state, host, y).state, x.userId, host.loads)
  }

  ghost predicate SavesClash(s: ManagerState, host: Host, x: Request, y: Request)
    requires HostOk(host) && x.code in host.plugins && y.code in host.plugins
  {
    var c, first, second := CacheWith(s, x.userId, host.loads), OpAt(s, host, x), OpAt(s, host, y);
    Clashes(c, first, second) || Clashes(c, second, first)
  }

  ghost predicate Filled(c: Cache) {
    NoEmptyInner(c.admins) && NoEmptyInner(c.index)
  }

  lemma OrderShowsIff(s: ManagerState, host: Host, x: Request, y: Request)
    requires HostOk(host) && x.code in host.plugins && y.code in host.plugins && x.userId == y.userId
    requires GroupOf(x.code) != GroupOf(y.code) && Filled(CacheWith(s, x.userId, host.loads))
    ensures AfterBoth(s, host, y, x) == AfterBoth(s, host, x, y) <==> !SavesClash(s, host, x, y)
  {
    TwoAtomic(s, host, x, y);
    TwoAtomic(s, host, y, x);
    SavesCommuteIff(CacheWith(s, x.userId, host.loads), s.tables, x.userId, OpAt(s, host, x), OpAt(s, host, y));
  }

  /** From any store without empty inner maps: an execution in which two calls of one user and of different groups cross
      ends with the user's cache of the run in stripe order if and only if neither save clashes with the other. */
  lemma CrossingShowsIff(host: Host, reqs: seq<Request>, s: ManagerState, schedule: seq<nat>)
    requires HostOk(host) && Crossed(host, reqs, s, schedule) && Saving(host, reqs[0]) && Saving(host, reqs[1])
    requires GroupOf(reqs[0].code) != GroupOf(reqs[1].code) && reqs[0].userId == reqs[1].userId
    requires Filled(CacheWith(s, reqs[0].userId, host.loads))
    ensures var w, u := RunSchedule(host, reqs, s, schedule), reqs[0].userId;
            && CacheWith(w.store, u, host.loads) == AfterBoth(s, host, reqs[1], reqs[0])
            && (CacheWith(w.store, u, host.loads) == CacheWith(Serial(host, reqs, s, w.log), u, host.loads) <==>
                !SavesClash(s, host, reqs[0], reqs[1]))
  {
    Serialisable(host, reqs, s, schedule);
    SerialTwo(host, reqs, s, 0, 1);
    SerialTwo(host, reqs, s, 1, 0);
    OrderShowsIff(s, host, reqs[0], reqs[1]);
  }

  // ----- An entry that only the index has -----

  /** A plugin that stores what it is given and merges nothing. */
  function Keeper(code: int, name: string): HostPlugin {
    HostPlugin(Plugin(code, name, true, (data, own, others) => Handled(true, data, "", true),
                      (data, own, others) => EventResult(own, others), values => ""),
               (data, own, others, view) => Handled(true, data, "", true))
  }

  function TwoKeepers(c: int, p: string, d: int, q: string, loads: Loads): Host {
    Host(map[c := Keeper(c, p), d := Keeper(d, q)], loads)
  }

  lemma KeeperAtomic(s: ManagerState, host: Host, r: Request, p: string)
    requires HostOk(host) && r.code in host.plugins && host.plugins[r.code] == Keeper(r.code, p)
    ensures OpAt(s, host, r) == SetOp(r.admin, p, r.data, "", r.combinedIo, r.adminIo)
  {
  }

  /** One failed write leaves an entry that only the index has. */
  lemma StaleStart(host: Host, r: Request, p: string)
    requires HostOk(host) && r.code in host.plugins && host.plugins[r.code] == Keeper(r.code, p)
    requires r.admin != "" && r.data != "" && r.adminIo == Failed
    ensures var c := CacheWith(Atomic(NO_STORE, host, r).state, r.userId, host.loads);
            c.admins == map[] && c.index == map[p := map[r.admin := r.data]]
  {
    KeeperAtomic(NO_STORE, host, r, p);
    AtomicIsSave(NO_STORE, host, r);
    assert CacheWith(NO_STORE, r.userId, host.loads) == EMPTY_CACHE;
  }

  /** Deleting it before and after a save of another policy of the administrator. */
  lemma StaleSaves(c: Cache, t: Tables, u: int, a: string, p: string, q: string, v: string, x: string)
    requires c.admins == map[] && c.index == map[p := map[a := v]]
    requires p != q && p != "" && q != "" && a != "" && x != ""
    ensures var delete, save := SetOp(a, p, "", "", Done, Done), SetOp(a, q, x, "", Done, Done);
            && Lookup(SaveBoth(c, t, u, save, delete).cache.index, p, a) == None
            && Lookup(SaveBoth(c, t, u, delete, save).cache.index, p, a) == Some(v)
  {
    var delete, save := SetOp(a, p, "", "", Done, Done), SetOp(a, q, x, "", Done, Done);
    BothParts(c, t, u, save, delete);
    BothParts(c, t, u, delete, save);
    WriteEntries(c, save, a, p);
    WriteEntries(AdminWrite(c, save), delete, a, p);
    WriteOwners(c, save, a);
    WriteEntries(c, delete, a, p);
    WriteEntries(AdminWrite(c, delete), save, a, p);
  }

  lemma StaleOrders(s: ManagerState, host: Host, delete: Request, save: Request, p: string, q: string, v: string)
    requires HostOk(host) && delete.code in host.plugins && host.plugins[delete.code] == Keeper(delete.code, p)
    requires save.code in host.plugins && host.plugins[save.code] == Keeper(save.code, q)
    requires GroupOf(delete.code) != GroupOf(save.code) && delete.userId == save.userId && delete.admin == save.admin
    requires delete.data == "" && save.data != "" && delete.admin != "" && p != "" && q != "" && p != q
    requires delete.combinedIo == delete.adminIo == save.combinedIo == save.adminIo == Done
    requires CacheWith(s, save.userId, host.loads).admins == map[]
    requires CacheWith(s, save.userId, host.loads).index == map[p := map[save.admin := v]]
    ensures Lookup(AfterBoth(s, host, save, delete).index, p, save.admin) == None
    ensures Lookup(AfterBoth(s, host, delete, save).index, p, save.admin) == Some(v)
  {
    var u := save.userId;
    KeeperAtomic(s, host, delete, p);
    KeeperAtomic(s, host, save, q);
    TwoAtomic(s, host, delete, save);
    TwoAtomic(s, host, save, delete);
    StaleSaves(CacheWith(s, u, host.loads), s.tables, u, save.admin, p, q, v, save.data);
  }

  /** From an empty store one write of `p` fails, and then its deletion and a save of `q` cross: the entry the failed
      write left in the index is gone, and in the run in stripe order it stays. */
  lemma StaleEntryShowsOrder(c: int, p: string, d: int, q: string, loads: Loads, u: int, a: string, v: string,
                             x: string)
    returns (schedule: seq<nat>)
    requires GroupOf(c) != GroupOf(d) && p != q && p != "" && q != "" && a != "" && v != "" && x != ""
    ensures var host := TwoKeepers(c, p, d, q, loads);
            var s := Atomic(NO_STORE, host, Request(c, a, v, u, Done, Failed)).state;
            var reqs := [Request(c, a, "", u, Done, Done), Request(d, a, x, u, Done, Done)];
            && Crossed(host, reqs, s, schedule)
            && Lookup(CacheWith(RunSchedule(host, reqs, s, schedule).store, u, loads).index, p, a) == None
            && Lookup(CacheWith(Serial(host, reqs, s, [0, 1]), u, loads).index, p, a) == Some(v)
  {
    var host := TwoKeepers(c, p, d, q, loads);
    var fail := Request(c, a, v, u, Done, Failed);
    var s := Atomic(NO_STORE, host, fail).state;
    var reqs := [Request(c, a, "", u, Done, Done), Request(d, a, x, u, Done, Done)];
    StaleStart(host, fail, p);
    schedule := Cross(host, reqs, s);
    CrossingShowsIff(host, reqs, s, schedule);
    SerialTwo(host, reqs, s, 0, 1);
    StaleOrders(s, host, reqs[0], reqs[1], p, q, v);
  }
}
