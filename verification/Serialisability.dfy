/** Any number of concurrent `UpdateDevicePolicy` calls, interleaved step by step: finding the plugin and
    pinning its library, taking the stripe of its conflict group, the three reads, the handler, the save and the
    release. A call whose policy is not saved takes no stripe. Any row call and any first load may fail. The final store
    is the one the saving calls give when run one at a time, in the order of their saves. */
module Serialisability {
  import opened PolicyModel
  import opened StoreLaws
  import opened ManagerModel
  import opened PipelineModel
  import opened ConflictGroups
  import opened PolicyCells

  /** The cells of one group's policies, for every user. */
  type View = imap<(int, string), Cell>

  /** A plugin whose handler may also look at the policies of its own conflict group. */
  datatype HostPlugin = HostPlugin(base: Plugin, look: (Parcel, string, string, View) -> Handled)

  /** `loads` says how the first load of each user ends. */
  datatype Host = Host(plugins: map<int, HostPlugin>, loads: Loads)

  /** A call, and how its two row calls end if it comes to save. */
  datatype Request = Request(code: int, admin: string, data: Parcel, userId: int, combinedIo: Outcome, adminIo: Outcome)

  /** Codes and policy names correspond one to one, and a saved policy has a name. */
  ghost predicate HostOk(host: Host) {
    && (forall c, d ::
          c in host.plugins && d in host.plugins && host.plugins[c].base.name == host.plugins[d].base.name ==>
          c == d)
    && (forall c :: c in host.plugins ==> host.plugins[c].base.name != "")
  }

  ghost function PolicyGroup(host: Host, policy: string): int {
    if exists c :: c in host.plugins && host.plugins[c].base.name == policy
    then var c :| c in host.plugins && host.plugins[c].base.name == policy; GroupOf(c)
    else NONE
  }

  function CellAt(s: ManagerState, host: Host, u: int, p: string): Cell {
    CellOf(CacheWith(s, u, host.loads), s.tables, u, p)
  }

  ghost function ViewOf(s: ManagerState, host: Host, g: int): View {
    imap k: (int, string) | PolicyGroup(host, k.1) == g :: CellAt(s, host, k.0, k.1)
  }

  /** One call run alone: `UpdateSpec` with the handler looking at the current policies of its group. */
  ghost function Atomic(s: ManagerState, host: Host, r: Request): CallResult {
    if r.code !in host.plugins then CallResult(s, false)
    else UpdateSpec(s, Bound(host.plugins[r.code], ViewOf(s, host, GroupOf(r.code))), r.admin, r.data, r.userId,
                    host.loads(r.userId), r.combinedIo, r.adminIo)
  }

  ghost function Bound(plugin: HostPlugin, view: View): Plugin {
    plugin.base.(handle := (data, own, others) => plugin.look(data, own, others, view))
  }

  // ----- Interleaved execution -----

  /** Call numbers below `n`. */
  ghost predicate Calls(log: seq<nat>, n: nat) {
    forall k :: 0 <= k < |log| ==> log[k] < n
  }

  datatype Pc =
    | Waiting
    | Pinned
    | Ready
    | ReadCombined
    | ReadOwn(own: string)
    | ReadOthers(own: string, others: string)
    | Executed(handled: Handled)
    | Leaving(ok: bool)
    | Finished(ok: bool)

  /** For the statements only: `log` records the saving calls in the order in which they took their stripes, `saves` in
      the order in which they saved or were refused. */
  datatype World = World(store: ManagerState, pcs: seq<Pc>, stripes: map<int, nat>, log: seq<nat>, saves: seq<nat>)

  ghost predicate Saving(host: Host, r: Request) {
    r.code in host.plugins && host.plugins[r.code].base.needSave
  }

  ghost function Move(w: World, i: nat, pc: Pc): World
    requires i < |w.pcs|
  {
    w.(pcs := w.pcs[i := pc])
  }

  /** The call is through with the store. */
  ghost function Through(w: World, i: nat, ok: bool, saving: bool, t: ManagerState): World
    requires i < |w.pcs|
  {
    Move(w, i, Leaving(ok)).(store := t, saves := if saving then w.saves + [i] else w.saves)
  }

  /** The next step of call `i`; a blocked or finished call stays. */
  ghost function StepOf(host: Host, reqs: seq<Request>, w: World, i: nat): World
    requires |w.pcs| == |reqs| && i < |reqs|
  {
    var r := reqs[i];
    if r.code !in host.plugins then (if w.pcs[i].Waiting? then Move(w, i, Finished(false)) else w)
    else HostedStep(host, r, w, i)
  }

  ghost function HostedStep(host: Host, r: Request, w: World, i: nat): World
    requires i < |w.pcs| && r.code in host.plugins
  {
    var plugin := host.plugins[r.code];
    var g := GroupOf(r.code);
    var l := Loaded(w.store, r.userId, host.loads(r.userId));
    match w.pcs[i]
    case Waiting => Move(w, i, Pinned)
    case Pinned =>
      if !plugin.base.needSave then Move(w, i, Ready)
      else if g in w.stripes then w
      else Move(w, i, Ready).(stripes := w.stripes[g := i], log := w.log + [i])
    case Ready => Move(w, i, ReadCombined).(store := l)
    case ReadCombined =>
      Move(w, i, ReadOwn(OrEmpty(ReadPolicy(l.caches[r.userId], r.admin, plugin.base.name)))).(store := l)
    case ReadOwn(own) => Move(w, i, ReadOthers(own, OthersMerge(l.caches[r.userId], plugin.base, r.admin))).(store := l)
    case ReadOthers(own, others) =>
      var h := plugin.look(r.data, own, others, ViewOf(w.store, host, g));
      if h.ok then Move(w, i, Executed(h)) else Through(w, i, false, plugin.base.needSave, w.store)
    case Executed(h) => Through(w, i, true, plugin.base.needSave, Saved(w.store, host, r, h))
    case Leaving(ok) =>
      Move(w, i, Finished(ok)).(stripes := if plugin.base.needSave then w.stripes - {g} else w.stripes)
    case Finished(_) => w
  }

  ghost function Saved(s: ManagerState, host: Host, r: Request, h: Handled): ManagerState
    requires r.code in host.plugins
  {
    var plugin := host.plugins[r.code].base;
    if plugin.needSave && h.isChanged
    then SetPolicyAll(s, r.userId, r.admin, plugin.name, h.policyData, h.mergeData, host.loads(r.userId), r.combinedIo,
                      r.adminIo).state
    else s
  }

  ghost function RunSchedule(host: Host, reqs: seq<Request>, s: ManagerState, schedule: seq<nat>): (w: World)
    requires Calls(schedule, |reqs|)
    ensures |w.pcs| == |reqs|
  {
    if schedule == [] then World(s, seq(|reqs|, i => Waiting), map[], [], [])
    else
      StepOf(host, reqs, RunSchedule(host, reqs, s, schedule[..|schedule| - 1]), schedule[|schedule| - 1])
  }

  // ----- Serial execution -----

  /** The calls one at a time, in this order. */
  ghost function Serial(host: Host, reqs: seq<Request>, s: ManagerState, log: seq<nat>): ManagerState
    requires Calls(log, |reqs|)
  {
    if log == [] then s
    else Atomic(Serial(host, reqs, s, log[..|log| - 1]), host, reqs[log[|log| - 1]]).state
  }

  lemma SerialNext(host: Host, reqs: seq<Request>, s: ManagerState, log: seq<nat>, i: nat)
    requires Calls(log, |reqs|) && i < |reqs|
    ensures Calls(log + [i], |reqs|)
    ensures Serial(host, reqs, s, log + [i]) == Atomic(Serial(host, reqs, s, log), host, reqs[i]).state
  {
    assert (log + [i])[..|log|] == log;
  }

  // ----- What a call reads and decides -----

  function CellOwn(cell: Cell, a: string): string {
    OrEmpty(if a == "" then cell.combined else Find(cell.values, a))
  }

  ghost function CellOthers(cell: Cell, plugin: Plugin, a: string): string {
    var others := cell.holders - {a};
    if others == map[] then "" else plugin.merge(ValuesOf(others))
  }

  lemma PolicyGroupIs(host: Host, c: int)
    requires HostOk(host) && c in host.plugins
    ensures PolicyGroup(host, host.plugins[c].base.name) == GroupOf(c)
  {
  }

  lemma ReadsAreOfCell(c: Cache, t: Tables, u: int, a: string, plugin: Plugin)
    ensures OrEmpty(ReadPolicy(c, a, plugin.name)) == CellOwn(CellOf(c, t, u, plugin.name), a)
    ensures OthersMerge(c, plugin, a) == CellOthers(CellOf(c, t, u, plugin.name), plugin, a)
  {
  }

  /** What the handler answers, as a function of its group's cells. */
  ghost function Decide(host: Host, r: Request, view: View): Handled
    requires r.code in host.plugins && (r.userId, host.plugins[r.code].base.name) in view
  {
    var plugin := host.plugins[r.code];
    var cell := view[(r.userId, plugin.base.name)];
    plugin.look(r.data, CellOwn(cell, r.admin), CellOthers(cell, plugin.base, r.admin), view)
  }

  ghost function DecideIn(host: Host, r: Request, s: ManagerState): Handled
    requires HostOk(host) && r.code in host.plugins
  {
    PolicyGroupIs(host, r.code);
    Decide(host, r, ViewOf(s, host, GroupOf(r.code)))
  }

  lemma LoadedIsSame(s: ManagerState, u: int, loads: Loads)
    ensures SameStore(s, Loaded(s, u, loads(u)), loads)
    ensures Loaded(s, u, loads(u)).caches[u] == CacheWith(s, u, loads)
  {
  }

  lemma SameStoreSameViews(s: ManagerState, t: ManagerState, host: Host)
    requires SameStore(s, t, host.loads)
    ensures forall g :: ViewOf(s, host, g) == ViewOf(t, host, g)
  {
    forall g ensures ViewOf(s, host, g) == ViewOf(t, host, g) {
      forall k: (int, string) | PolicyGroup(host, k.1) == g
        ensures CellAt(s, host, k.0, k.1) == CellAt(t, host, k.0, k.1)
      {
        assert CacheWith(s, k.0, host.loads) == CacheWith(t, k.0, host.loads);
      }
    }
  }

  /** A whole call is the handler's decision and its save. */
  lemma AtomicIs(s: ManagerState, host: Host, r: Request)
    requires HostOk(host) && r.code in host.plugins
    ensures var h, l := DecideIn(host, r, s), Loaded(s, r.userId, host.loads(r.userId));
            && Atomic(s, host, r).ok == h.ok
            && Atomic(s, host, r).state == if h.ok then Saved(l, host, r, h) else l
  {
    PolicyGroupIs(host, r.code);
    LoadedIsSame(s, r.userId, host.loads);
    ReadsAreOfCell(CacheWith(s, r.userId, host.loads), s.tables, r.userId, r.admin, host.plugins[r.code].base);
  }

  lemma SaveSame(s: ManagerState, t: ManagerState, host: Host, r: Request, h: Handled)
    requires SameStore(s, t, host.loads) && r.code in host.plugins
    ensures SameStore(Saved(s, host, r, h), Saved(t, host, r, h), host.loads)
  {
    var op := SetPolicyOp(r.userId, r.admin, host.plugins[r.code].base.name, h.policyData, h.mergeData, r.combinedIo,
                          r.adminIo);
    StepSameStore(s, t, op, host.loads);
  }

  /** Equal stores decide alike and stay equal; a call is its decision saved at once. */
  lemma AtomicSame(s: ManagerState, t: ManagerState, host: Host, r: Request)
    requires HostOk(host) && r.code in host.plugins && SameStore(s, t, host.loads)
    ensures DecideIn(host, r, s) == DecideIn(host, r, t)
    ensures var h := DecideIn(host, r, s);
            SameStore(if h.ok then Saved(s, host, r, h) else s, Atomic(t, host, r).state, host.loads)
  {
    var l := Loaded(t, r.userId, host.loads(r.userId));
    SameStoreSameViews(s, t, host);
    AtomicIs(t, host, r);
    LoadedIsSame(t, r.userId, host.loads);
    assert SameStore(s, l, host.loads) by {
      forall u ensures CacheWith(s, u, host.loads) == CacheWith(l, u, host.loads) {
        assert CacheWith(s, u, host.loads) == CacheWith(t, u, host.loads) == CacheWith(l, u, host.loads);
      }
    }
    SaveSame(s, l, host, r, DecideIn(host, r, s));
  }

  // ----- A save leaves the other groups alone -----

  lemma CacheAfterSave(s: ManagerState, loads: Loads, u: int, a: string, p: string, v: string, merged: string,
                       combinedIo: Outcome, adminIo: Outcome, w: int)
    ensures var s' := SetPolicyAll(s, u, a, p, v, merged, loads(u), combinedIo, adminIo).state;
            var r := SetPolicySpec(CacheWith(s, u, loads), s.tables, u, a, p, v, merged, combinedIo, adminIo);
            s'.tables == r.tables && CacheWith(s', w, loads) == if w == u then r.cache else CacheWith(s, w, loads)
  {
    if w != u { SetPolicyOtherUser(CacheWith(s, u, loads), s.tables, u, a, p, v, merged, combinedIo, adminIo, w); }
  }

  /** A save touches the one cell it names. */
  lemma OtherCellKept(s: ManagerState, host: Host, r: Request, h: Handled, w: int, q: string)
    requires r.code in host.plugins && (w != r.userId || q != host.plugins[r.code].base.name)
    ensures CellAt(Saved(s, host, r, h), host, w, q) == CellAt(s, host, w, q)
  {
    var p, c := host.plugins[r.code].base.name, CacheWith(s, r.userId, host.loads);
    CacheAfterSave(s, host.loads, r.userId, r.admin, p, h.policyData, h.mergeData, r.combinedIo, r.adminIo, w);
    if w == r.userId {
      OtherPolicyKept(c, s.tables, w, r.admin, p, h.policyData, h.mergeData, r.combinedIo, r.adminIo, q);
    } else {
      OtherUserRowsKept(c, s.tables, r.userId, r.admin, p, h.policyData, h.mergeData, r.combinedIo, r.adminIo, w, q);
    }
  }

  lemma SavedFrame(s: ManagerState, host: Host, r: Request, h: Handled, g: int)
    requires HostOk(host) && r.code in host.plugins && GroupOf(r.code) != g
    ensures ViewOf(Saved(s, host, r, h), host, g) == ViewOf(s, host, g)
  {
    PolicyGroupIs(host, r.code);
    forall k: (int, string) | PolicyGroup(host, k.1) == g
      ensures CellAt(Saved(s, host, r, h), host, k.0, k.1) == CellAt(s, host, k.0, k.1)
    {
      OtherCellKept(s, host, r, h, k.0, k.1);
    }
  }

  /** Under any outcomes a call leaves the policies of the other groups alone. */
  lemma AtomicFrame(s: ManagerState, host: Host, r: Request, g: int)
    requires HostOk(host) && r.code in host.plugins && GroupOf(r.code) != g
    ensures ViewOf(Atomic(s, host, r).state, host, g) == ViewOf(s, host, g)
  {
    var l := Loaded(s, r.userId, host.loads(r.userId));
    AtomicIs(s, host, r);
    LoadedIsSame(s, r.userId, host.loads);
    SameStoreSameViews(s, l, host);
    SavedFrame(l, host, r, DecideIn(host, r, s), g);
  }

  // ----- The invariant -----

  predicate Past(pc: Pc) {
    pc.Leaving? || pc.Finished?
  }

  predicate Inside(pc: Pc) {
    !pc.Waiting? && !pc.Pinned? && !pc.Finished?
  }

  ghost predicate LocksOk(host: Host, reqs: seq<Request>, w: World)
    requires |w.pcs| == |reqs|
  {
    forall i :: 0 <= i < |reqs| && Saving(host, reqs[i]) && Inside(w.pcs[i]) ==>
      GroupOf(reqs[i].code) in w.stripes && w.stripes[GroupOf(reqs[i].code)] == i
  }

  /** A stripe is held by the one saving call that took it and is between its lock and its release. */
  ghost predicate StripesHeld(host: Host, reqs: seq<Request>, w: World)
    requires |w.pcs| == |reqs|
  {
    forall g :: g in w.stripes ==>
      var i := w.stripes[g]; i < |reqs| && Saving(host, reqs[i]) && g == GroupOf(reqs[i].code) && Inside(w.pcs[i])
  }

  /** Each list holds the calls it is to hold once. */
  ghost predicate ListsOk(host: Host, reqs: seq<Request>, w: World)
    requires |w.pcs| == |reqs|
  {
    && Calls(w.log, |reqs|) && Calls(w.saves, |reqs|)
    && (forall i :: 0 <= i < |reqs| ==>
          && (i in w.log <==> Saving(host, reqs[i]) && !w.pcs[i].Waiting? && !w.pcs[i].Pinned?)
          && (i in w.saves <==> Saving(host, reqs[i]) && Past(w.pcs[i])))
    && (forall j, k :: 0 <= j < k < |w.log| ==> w.log[j] != w.log[k])
    && (forall j, k :: 0 <= j < k < |w.saves| ==> w.saves[j] != w.saves[k])
  }

  /** The calls of one group, in their order. */
  ghost function InGroup(reqs: seq<Request>, log: seq<nat>, g: int): (p: seq<nat>)
    requires Calls(log, |reqs|)
    ensures Calls(p, |reqs|)
  {
    if log == [] then []
    else
      var init, last := InGroup(reqs, log[..|log| - 1], g), log[|log| - 1];
      if GroupOf(reqs[last].code) == g then init + [last] else init
  }

  /** The stripe's holder, until it is through with the store. */
  ghost function Pending(w: World, g: int): seq<nat> {
    if g in w.stripes && w.stripes[g] < |w.pcs| && !Past(w.pcs[w.stripes[g]]) then [w.stripes[g]] else []
  }

  /** In each group the saves come in the order of the stripes. */
  ghost predicate OrderOk(reqs: seq<Request>, w: World)
    requires Calls(w.log, |reqs|) && Calls(w.saves, |reqs|)
  {
    forall g :: InGroup(reqs, w.log, g) == InGroup(reqs, w.saves, g) + Pending(w, g)
  }

  ghost predicate ControlOk(host: Host, reqs: seq<Request>, w: World) {
    && |w.pcs| == |reqs| && LocksOk(host, reqs, w) && StripesHeld(host, reqs, w) && ListsOk(host, reqs, w)
    && OrderOk(reqs, w)
  }

  /** What the stripe's holder has read is still so. */
  ghost predicate ReadsOk(host: Host, reqs: seq<Request>, w: World)
    requires HostOk(host) && |w.pcs| == |reqs|
  {
    forall i :: 0 <= i < |reqs| && Saving(host, reqs[i]) ==> ReadsOfOk(host, reqs[i], w.store, w.pcs[i])
  }

  ghost predicate ReadsOfOk(host: Host, r: Request, s: ManagerState, pc: Pc)
    requires HostOk(host) && r.code in host.plugins
  {
    var plugin := host.plugins[r.code].base;
    var cell := CellAt(s, host, r.userId, plugin.name);
    match pc
    case ReadOwn(own) => own == CellOwn(cell, r.admin)
    case ReadOthers(own, others) => own == CellOwn(cell, r.admin) && others == CellOthers(cell, plugin, r.admin)
    case Executed(h) => h.ok && h == DecideIn(host, r, s)
    case _ => true
  }

  ghost predicate ReplyOk(host: Host, reqs: seq<Request>, s: ManagerState, saves: seq<nat>, k: nat, pc: Pc)
    requires Calls(saves, |reqs|) && k < |saves|
  {
    Past(pc) && pc.ok == Atomic(Serial(host, reqs, s, saves[..k]), host, reqs[saves[k]]).ok
  }

  ghost predicate RepliesOk(host: Host, reqs: seq<Request>, s: ManagerState, w: World)
    requires |w.pcs| == |reqs| && Calls(w.saves, |reqs|)
  {
    forall k :: 0 <= k < |w.saves| ==> ReplyOk(host, reqs, s, w.saves, k, w.pcs[w.saves[k]])
  }

  /** The store is that of the calls that are through, run one at a time in that order. */
  ghost predicate Inv(host: Host, reqs: seq<Request>, s: ManagerState, w: World) {
    && HostOk(host) && ControlOk(host, reqs, w) && ReadsOk(host, reqs, w)
    && SameStore(w.store, Serial(host, reqs, s, w.saves), host.loads) && RepliesOk(host, reqs, s, w)
  }

  // ----- Every step keeps the locks and the order -----

  lemma InGroupNext(reqs: seq<Request>, log: seq<nat>, i: nat, g: int)
    requires Calls(log, |reqs|) && i < |reqs|
    ensures Calls(log + [i], |reqs|)
    ensures InGroup(reqs, log + [i], g) == InGroup(reqs, log, g) + if GroupOf(reqs[i].code) == g then [i] else []
  {
    assert (log + [i])[..|log|] == log;
  }

  /** Steps that neither take nor free a stripe and do not end a saving call's use of the store. */
  lemma QuietControl(host: Host, reqs: seq<Request>, w: World, i: nat, pc: Pc, t: ManagerState)
    requires ControlOk(host, reqs, w) && i < |reqs|
    requires Saving(host, reqs[i]) ==> Inside(w.pcs[i]) == Inside(pc) && !Past(w.pcs[i]) && !Past(pc)
    ensures ControlOk(host, reqs, Move(w, i, pc).(store := t))
  {
    var w' := Move(w, i, pc).(store := t);
    forall g ensures Pending(w', g) == Pending(w, g) {
      if g in w.stripes && w.stripes[g] == i { assert Saving(host, reqs[i]); }
    }
  }

  lemma AcquireLists(host: Host, reqs: seq<Request>, w: World, i: nat, w': World)
    requires |w.pcs| == |reqs| && ListsOk(host, reqs, w) && i < |reqs| && Saving(host, reqs[i]) && w.pcs[i].Pinned?
    requires w'.pcs == w.pcs[i := Ready] && w'.log == w.log + [i] && w'.saves == w.saves
    ensures ListsOk(host, reqs, w')
  {
    assert i !in w.log;
  }

  ghost function Acquired(w: World, i: nat, g: int): World
    requires i < |w.pcs|
  {
    Move(w, i, Ready).(stripes := w.stripes[g := i], log := w.log + [i])
  }

  ghost function Released(w: World, i: nat, ok: bool, g: int): World
    requires i < |w.pcs|
  {
    Move(w, i, Finished(ok)).(stripes := w.stripes - {g})
  }

  lemma AcquireOrder(reqs: seq<Request>, w: World, i: nat, g: int)
    requires |w.pcs| == |reqs| && i < |reqs| && GroupOf(reqs[i].code) == g && g !in w.stripes && w.pcs[i].Pinned?
    requires Calls(w.log, |reqs|) && Calls(w.saves, |reqs|) && OrderOk(reqs, w)
    requires forall h :: h in w.stripes ==> w.stripes[h] != i
    ensures Calls(Acquired(w, i, g).log, |reqs|) && OrderOk(reqs, Acquired(w, i, g))
  {
    var w' := Acquired(w, i, g);
    forall h ensures InGroup(reqs, w'.log, h) == InGroup(reqs, w'.saves, h) + Pending(w', h) {
      InGroupNext(reqs, w.log, i, h);
      assert InGroup(reqs, w.log, h) == InGroup(reqs, w.saves, h) + Pending(w, h);
      if h != g {
        assert Pending(w', h) == Pending(w, h);
      } else { assert Pending(w, h) == [] && Pending(w', h) == [i]; }
    }
  }

  lemma AcquireHeld(host: Host, reqs: seq<Request>, w: World, i: nat, g: int)
    requires |w.pcs| == |reqs| && i < |reqs| && Saving(host, reqs[i]) && GroupOf(reqs[i].code) == g && g !in w.stripes
    requires w.pcs[i].Pinned? && LocksOk(host, reqs, w) && StripesHeld(host, reqs, w)
    ensures LocksOk(host, reqs, Acquired(w, i, g)) && StripesHeld(host, reqs, Acquired(w, i, g))
    ensures forall h :: h in w.stripes ==> w.stripes[h] != i
  {
  }

  lemma AcquireControl(host: Host, reqs: seq<Request>, w: World, i: nat)
    requires ControlOk(host, reqs, w) && i < |reqs| && Saving(host, reqs[i]) && w.pcs[i].Pinned?
    requires GroupOf(reqs[i].code) !in w.stripes
    ensures ControlOk(host, reqs, Acquired(w, i, GroupOf(reqs[i].code)))
  {
    var g := GroupOf(reqs[i].code);
    AcquireLists(host, reqs, w, i, Acquired(w, i, g));
    AcquireHeld(host, reqs, w, i, g);
    AcquireOrder(reqs, w, i, g);
  }

  lemma ThroughLists(host: Host, reqs: seq<Request>, w: World, i: nat, ok: bool, t: ManagerState)
    requires |w.pcs| == |reqs| && ListsOk(host, reqs, w) && i < |reqs| && Saving(host, reqs[i])
    requires Inside(w.pcs[i]) && !Past(w.pcs[i])
    ensures ListsOk(host, reqs, Through(w, i, ok, true, t))
  {
    assert i !in w.saves;
  }

  lemma ThroughControl(host: Host, reqs: seq<Request>, w: World, i: nat, ok: bool, t: ManagerState)
    requires ControlOk(host, reqs, w) && i < |reqs| && Saving(host, reqs[i]) && Inside(w.pcs[i]) && !Past(w.pcs[i])
    ensures ControlOk(host, reqs, Through(w, i, ok, true, t))
  {
    var w' := Through(w, i, ok, true, t);
    ThroughLists(host, reqs, w, i, ok, t);
    forall g ensures InGroup(reqs, w'.log, g) == InGroup(reqs, w'.saves, g) + Pending(w', g) {
      InGroupNext(reqs, w.saves, i, g);
      if g == GroupOf(reqs[i].code) {
        assert Pending(w, g) == [i] && Pending(w', g) == [];
        assert InGroup(reqs, w.saves, g) + [i] + [] == InGroup(reqs, w.saves, g) + [i];
      } else {
        assert Pending(w', g) == Pending(w, g);
      }
    }
  }

  lemma ReleaseControl(host: Host, reqs: seq<Request>, w: World, i: nat)
    requires ControlOk(host, reqs, w) && i < |reqs| && Saving(host, reqs[i]) && w.pcs[i].Leaving?
    ensures ControlOk(host, reqs, Released(w, i, w.pcs[i].ok, GroupOf(reqs[i].code)))
  {
    var w' := Released(w, i, w.pcs[i].ok, GroupOf(reqs[i].code));
    forall g ensures Pending(w', g) == Pending(w, g) {
      if g in w.stripes && w.stripes[g] == i { assert g == GroupOf(reqs[i].code); }
    }
  }

  // ----- Every step keeps the invariant -----

  lemma SameStoreTrans(s: ManagerState, t: ManagerState, r: ManagerState, loads: Loads)
    requires SameStore(s, t, loads) && SameStore(t, r, loads)
    ensures SameStore(s, r, loads) && SameStore(t, s, loads)
  {
    forall u ensures CacheWith(s, u, loads) == CacheWith(r, u, loads) {
      assert CacheWith(s, u, loads) == CacheWith(t, u, loads) == CacheWith(r, u, loads);
    }
  }

  lemma ReadsFrame(host: Host, r: Request, s: ManagerState, t: ManagerState, pc: Pc)
    requires HostOk(host) && r.code in host.plugins && ReadsOfOk(host, r, s, pc)
    requires ViewOf(s, host, GroupOf(r.code)) == ViewOf(t, host, GroupOf(r.code))
    ensures ReadsOfOk(host, r, t, pc)
  {
    PolicyGroupIs(host, r.code);
    var k := (r.userId, host.plugins[r.code].base.name);
    assert ViewOf(s, host, GroupOf(r.code))[k] == ViewOf(t, host, GroupOf(r.code))[k];
  }

  /** What the other holders have read stays so when their groups' cells do. */
  lemma ReadsKeep(host: Host, reqs: seq<Request>, w: World, w': World, i: nat)
    requires HostOk(host) && |w.pcs| == |w'.pcs| == |reqs| && i < |reqs| && ReadsOk(host, reqs, w)
    requires forall j :: 0 <= j < |reqs| && j != i ==> w'.pcs[j] == w.pcs[j]
    requires forall j :: 0 <= j < |reqs| && j != i && Saving(host, reqs[j]) && Inside(w.pcs[j]) ==>
               ViewOf(w.store, host, GroupOf(reqs[j].code)) == ViewOf(w'.store, host, GroupOf(reqs[j].code))
    requires Saving(host, reqs[i]) ==> ReadsOfOk(host, reqs[i], w'.store, w'.pcs[i])
    ensures ReadsOk(host, reqs, w')
  {
    forall j | 0 <= j < |reqs| && Saving(host, reqs[j]) ensures ReadsOfOk(host, reqs[j], w'.store, w'.pcs[j]) {
      if j != i && Inside(w.pcs[j]) { ReadsFrame(host, reqs[j], w.store, w'.store, w.pcs[j]); }
    }
  }

  lemma RepliesKeep(host: Host, reqs: seq<Request>, s: ManagerState, w: World, w': World, i: nat)
    requires |w.pcs| == |w'.pcs| == |reqs| && ListsOk(host, reqs, w) && i < |reqs| && RepliesOk(host, reqs, s, w)
    requires w'.saves == w.saves && w'.pcs == w.pcs[i := w'.pcs[i]]
    requires Saving(host, reqs[i]) && Past(w.pcs[i]) ==> Past(w'.pcs[i]) && w'.pcs[i].ok == w.pcs[i].ok
    ensures RepliesOk(host, reqs, s, w')
  {
    forall k | 0 <= k < |w.saves| ensures ReplyOk(host, reqs, s, w'.saves, k, w'.pcs[w'.saves[k]]) {
      assert ReplyOk(host, reqs, s, w.saves, k, w.pcs[w.saves[k]]);
      assert w.saves[k] in w.saves;
    }
  }

  lemma QuietKeeps(host: Host, reqs: seq<Request>, s: ManagerState, w: World, i: nat, pc: Pc, t: ManagerState)
    requires Inv(host, reqs, s, w) && i < |reqs| && SameStore(w.store, t, host.loads)
    requires Saving(host, reqs[i]) ==>
               Inside(w.pcs[i]) == Inside(pc) && !Past(w.pcs[i]) && !Past(pc) && ReadsOfOk(host, reqs[i], t, pc)
    ensures Inv(host, reqs, s, Move(w, i, pc).(store := t))
  {
    var w' := Move(w, i, pc).(store := t);
    QuietControl(host, reqs, w, i, pc, t);
    SameStoreSameViews(w.store, t, host);
    ReadsKeep(host, reqs, w, w', i);
    RepliesKeep(host, reqs, s, w, w', i);
    SameStoreTrans(w.store, t, t, host.loads);
    SameStoreTrans(t, w.store, Serial(host, reqs, s, w.saves), host.loads);
  }

  lemma AcquireKeeps(host: Host, reqs: seq<Request>, s: ManagerState, w: World, i: nat)
    requires Inv(host, reqs, s, w) && i < |reqs| && Saving(host, reqs[i]) && w.pcs[i].Pinned?
    requires GroupOf(reqs[i].code) !in w.stripes
    ensures Inv(host, reqs, s, Acquired(w, i, GroupOf(reqs[i].code)))
  {
    var w' := Acquired(w, i, GroupOf(reqs[i].code));
    AcquireControl(host, reqs, w, i);
    ReadsKeep(host, reqs, w, w', i);
    RepliesKeep(host, reqs, s, w, w', i);
  }

  lemma ReleaseKeeps(host: Host, reqs: seq<Request>, s: ManagerState, w: World, i: nat)
    requires Inv(host, reqs, s, w) && i < |reqs| && Saving(host, reqs[i]) && w.pcs[i].Leaving?
    ensures Inv(host, reqs, s, Released(w, i, w.pcs[i].ok, GroupOf(reqs[i].code)))
  {
    var w' := Released(w, i, w.pcs[i].ok, GroupOf(reqs[i].code));
    ReleaseControl(host, reqs, w, i);
    ReadsKeep(host, reqs, w, w', i);
    RepliesKeep(host, reqs, s, w, w', i);
  }

  /** Two holders of stripes are calls of different groups. */
  lemma HoldersApart(host: Host, reqs: seq<Request>, w: World, i: nat, j: nat)
    requires ControlOk(host, reqs, w) && i < |reqs| && j < |reqs| && i != j
    requires Saving(host, reqs[i]) && Inside(w.pcs[i]) && Saving(host, reqs[j]) && Inside(w.pcs[j])
    ensures GroupOf(reqs[i].code) != GroupOf(reqs[j].code)
  {
  }

  lemma ThroughReads(host: Host, reqs: seq<Request>, s: ManagerState, w: World, i: nat, h: Handled)
    requires Inv(host, reqs, s, w) && i < |reqs| && Saving(host, reqs[i]) && Inside(w.pcs[i]) && !Past(w.pcs[i])
    ensures ReadsOk(host, reqs, Through(w, i, h.ok, true, if h.ok then Saved(w.store, host, reqs[i], h) else w.store))
  {
    var t := if h.ok then Saved(w.store, host, reqs[i], h) else w.store;
    forall j | 0 <= j < |reqs| && j != i && Saving(host, reqs[j]) && Inside(w.pcs[j])
      ensures ViewOf(w.store, host, GroupOf(reqs[j].code)) == ViewOf(t, host, GroupOf(reqs[j].code))
    {
      HoldersApart(host, reqs, w, i, j);
      SavedFrame(w.store, host, reqs[i], h, GroupOf(reqs[j].code));
    }
    ReadsKeep(host, reqs, w, Through(w, i, h.ok, true, t), i);
  }

  lemma OldReply(host: Host, reqs: seq<Request>, s: ManagerState, w: World, i: nat, pc: Pc, k: nat)
    requires |w.pcs| == |reqs| && ListsOk(host, reqs, w) && RepliesOk(host, reqs, s, w) && i < |reqs| && !Past(w.pcs[i])
    requires k < |w.saves|
    ensures Calls(w.saves + [i], |reqs|) && ReplyOk(host, reqs, s, w.saves + [i], k, w.pcs[i := pc][w.saves[k]])
  {
    assert w.saves[k] in w.saves && ReplyOk(host, reqs, s, w.saves, k, w.pcs[w.saves[k]]);
    assert (w.saves + [i])[..k] == w.saves[..k];
  }

  lemma NewReply(host: Host, reqs: seq<Request>, s: ManagerState, saves: seq<nat>, i: nat, ok: bool)
    requires Calls(saves, |reqs|) && i < |reqs| && ok == Atomic(Serial(host, reqs, s, saves), host, reqs[i]).ok
    ensures Calls(saves + [i], |reqs|) && ReplyOk(host, reqs, s, saves + [i], |saves|, Leaving(ok))
  {
    assert (saves + [i])[..|saves|] == saves;
  }

  lemma ThroughReplies(host: Host, reqs: seq<Request>, s: ManagerState, w: World, i: nat, ok: bool, t: ManagerState)
    requires |w.pcs| == |reqs| && ListsOk(host, reqs, w) && RepliesOk(host, reqs, s, w) && i < |reqs| && !Past(w.pcs[i])
    requires ok == Atomic(Serial(host, reqs, s, w.saves), host, reqs[i]).ok
    ensures Calls(w.saves + [i], |reqs|) && RepliesOk(host, reqs, s, Through(w, i, ok, true, t))
  {
    var w' := Through(w, i, ok, true, t);
    NewReply(host, reqs, s, w.saves, i, ok);
    forall k | 0 <= k < |w'.saves| ensures ReplyOk(host, reqs, s, w'.saves, k, w'.pcs[w'.saves[k]]) {
      if k < |w.saves| { OldReply(host, reqs, s, w, i, Leaving(ok), k); }
    }
  }

  /** The call that is through is the next of the serial run. */
  lemma ThroughKeeps(host: Host, reqs: seq<Request>, s: ManagerState, w: World, i: nat, h: Handled)
    requires Inv(host, reqs, s, w) && i < |reqs| && Saving(host, reqs[i]) && Inside(w.pcs[i]) && !Past(w.pcs[i])
    requires h == DecideIn(host, reqs[i], w.store)
    ensures Inv(host, reqs, s,
                Through(w, i, h.ok, true, if h.ok then Saved(w.store, host, reqs[i], h) else w.store))
  {
    var t := if h.ok then Saved(w.store, host, reqs[i], h) else w.store;
    var before := Serial(host, reqs, s, w.saves);
    AtomicSame(w.store, before, host, reqs[i]);
    AtomicIs(before, host, reqs[i]);
    ThroughControl(host, reqs, w, i, h.ok, t);
    ThroughReads(host, reqs, s, w, i, h);
    ThroughReplies(host, reqs, s, w, i, h.ok, t);
    SerialNext(host, reqs, s, w.saves, i);
  }

  lemma StepKeeps(host: Host, reqs: seq<Request>, s: ManagerState, w: World, i: nat)
    requires Inv(host, reqs, s, w) && i < |reqs|
    ensures Inv(host, reqs, s, StepOf(host, reqs, w, i))
  {
    var r := reqs[i];
    if r.code !in host.plugins {
      if w.pcs[i].Waiting? { QuietKeeps(host, reqs, s, w, i, Finished(false), w.store); }
    } else if Saving(host, r) {
      SavingStepKeeps(host, reqs, s, w, i);
    } else {
      PassingStepKeeps(host, reqs, s, w, i);
    }
  }

  /** A call of a policy that is not saved. */
  lemma PassingStepKeeps(host: Host, reqs: seq<Request>, s: ManagerState, w: World, i: nat)
    requires Inv(host, reqs, s, w) && i < |reqs| && reqs[i].code in host.plugins && !Saving(host, reqs[i])
    ensures Inv(host, reqs, s, HostedStep(host, reqs[i], w, i))
  {
    LoadedIsSame(w.store, reqs[i].userId, host.loads);
    PassingStepIs(host, reqs[i], w, i);
    var w' := HostedStep(host, reqs[i], w, i);
    QuietKeeps(host, reqs, s, w, i, w'.pcs[i], w'.store);
  }

  lemma PassingStepIs(host: Host, r: Request, w: World, i: nat)
    requires i < |w.pcs| && r.code in host.plugins && !host.plugins[r.code].base.needSave
    ensures var w' := HostedStep(host, r, w, i);
            && |w'.pcs| == |w.pcs| && w' == Move(w, i, w'.pcs[i]).(store := w'.store)
            && (w'.store == w.store || w'.store == Loaded(w.store, r.userId, host.loads(r.userId)))
  {
  }

  lemma SavingStepKeeps(host: Host, reqs: seq<Request>, s: ManagerState, w: World, i: nat)
    requires Inv(host, reqs, s, w) && i < |reqs| && Saving(host, reqs[i])
    ensures Inv(host, reqs, s, HostedStep(host, reqs[i], w, i))
  {
    var r := reqs[i];
    match w.pcs[i]
    case Waiting => QuietKeeps(host, reqs, s, w, i, Pinned, w.store);
    case Pinned => if GroupOf(r.code) !in w.stripes { AcquireKeeps(host, reqs, s, w, i); }
    case Ready => ReadStepKeeps(host, reqs, s, w, i);
    case ReadCombined => ReadStepKeeps(host, reqs, s, w, i);
    case ReadOwn(own) => ReadStepKeeps(host, reqs, s, w, i);
    case ReadOthers(own, others) => DecideKeeps(host, reqs, s, w, i);
    case Executed(h) =>
      assert ReadsOfOk(host, r, w.store, w.pcs[i]);
      ThroughKeeps(host, reqs, s, w, i, h);
    case Leaving(ok) => ReleaseKeeps(host, reqs, s, w, i);
    case Finished(_) =>
  }

  /** What the next read of a call gives. */
  ghost function NextRead(host: Host, r: Request, c: Cache, pc: Pc): Pc
    requires r.code in host.plugins
  {
    match pc
    case ReadCombined => ReadOwn(OrEmpty(ReadPolicy(c, r.admin, host.plugins[r.code].base.name)))
    case ReadOwn(own) => ReadOthers(own, OthersMerge(c, host.plugins[r.code].base, r.admin))
    case _ => ReadCombined
  }

  lemma ReadStepIs(host: Host, r: Request, w: World, i: nat)
    requires i < |w.pcs| && r.code in host.plugins && (w.pcs[i].Ready? || w.pcs[i].ReadCombined? || w.pcs[i].ReadOwn?)
    ensures HostedStep(host, r, w, i) ==
            Move(w, i, NextRead(host, r, CacheWith(w.store, r.userId, host.loads), w.pcs[i]))
              .(store := Loaded(w.store, r.userId, host.loads(r.userId)))
  {
    LoadedIsSame(w.store, r.userId, host.loads);
  }

  lemma NextReadOk(host: Host, r: Request, s: ManagerState, pc: Pc)
    requires HostOk(host) && r.code in host.plugins && ReadsOfOk(host, r, s, pc)
    requires pc.Ready? || pc.ReadCombined? || pc.ReadOwn?
    ensures ReadsOfOk(host, r, s, NextRead(host, r, CacheWith(s, r.userId, host.loads), pc))
  {
    ReadsAreOfCell(CacheWith(s, r.userId, host.loads), s.tables, r.userId, r.admin, host.plugins[r.code].base);
  }

  lemma ReadStepKeeps(host: Host, reqs: seq<Request>, s: ManagerState, w: World, i: nat)
    requires Inv(host, reqs, s, w) && i < |reqs| && Saving(host, reqs[i])
    requires w.pcs[i].Ready? || w.pcs[i].ReadCombined? || w.pcs[i].ReadOwn?
    ensures Inv(host, reqs, s, HostedStep(host, reqs[i], w, i))
  {
    var r := reqs[i];
    var l := Loaded(w.store, r.userId, host.loads(r.userId));
    var pc := NextRead(host, r, CacheWith(w.store, r.userId, host.loads), w.pcs[i]);
    assert ReadsOfOk(host, r, w.store, w.pcs[i]);
    NextReadOk(host, r, w.store, w.pcs[i]);
    LoadedIsSame(w.store, r.userId, host.loads);
    SameStoreSameViews(w.store, l, host);
    ReadsFrame(host, r, w.store, l, pc);
    QuietKeeps(host, reqs, s, w, i, pc, l);
    ReadStepIs(host, r, w, i);
  }

  lemma DecideIs(host: Host, r: Request, w: World, i: nat)
    requires HostOk(host) && i < |w.pcs| && Saving(host, r) && w.pcs[i].ReadOthers? &&
             ReadsOfOk(host, r, w.store, w.pcs[i])
    ensures var h := DecideIn(host, r, w.store);
            HostedStep(host, r, w, i) == if h.ok then Move(w, i, Executed(h)) else Through(w, i, false, true, w.store)
  {
    PolicyGroupIs(host, r.code);
  }

  lemma DecideKeeps(host: Host, reqs: seq<Request>, s: ManagerState, w: World, i: nat)
    requires Inv(host, reqs, s, w) && i < |reqs| && Saving(host, reqs[i]) && w.pcs[i].ReadOthers?
    ensures Inv(host, reqs, s, HostedStep(host, reqs[i], w, i))
  {
    var h := DecideIn(host, reqs[i], w.store);
    assert ReadsOfOk(host, reqs[i], w.store, w.pcs[i]);
    DecideIs(host, reqs[i], w, i);
    if h.ok {
      SameStoreTrans(w.store, w.store, w.store, host.loads);
      QuietKeeps(host, reqs, s, w, i, Executed(h), w.store);
    } else {
      ThroughKeeps(host, reqs, s, w, i, h);
    }
  }

  // ----- The theorem -----

  lemma {:induction false} RunKeeps(host: Host, reqs: seq<Request>, s: ManagerState, schedule: seq<nat>)
    requires HostOk(host) && Calls(schedule, |reqs|)
    ensures Inv(host, reqs, s, RunSchedule(host, reqs, s, schedule))
  {
    if schedule != [] {
      RunKeeps(host, reqs, s, schedule[..|schedule| - 1]);
      StepKeeps(host, reqs, s, RunSchedule(host, reqs, s, schedule[..|schedule| - 1]), schedule[|schedule| - 1]);
    }
  }

  ghost predicate AllFinished(w: World) {
    forall i :: 0 <= i < |w.pcs| ==> w.pcs[i].Finished?
  }

  /** Both lists hold the saving calls, each once, and those of one group in the same order. */
  ghost predicate SameOrderByGroup(host: Host, reqs: seq<Request>, log: seq<nat>, saves: seq<nat>) {
    && Calls(log, |reqs|) && Calls(saves, |reqs|)
    && (forall i :: 0 <= i < |reqs| ==>
          (i in log <==> Saving(host, reqs[i])) && (i in saves <==> Saving(host, reqs[i])))
    && (forall j, k :: 0 <= j < k < |log| ==> log[j] != log[k])
    && (forall j, k :: 0 <= j < k < |saves| ==> saves[j] != saves[k])
    && (forall g :: InGroup(reqs, log, g) == InGroup(reqs, saves, g))
  }

  lemma FinalOrder(host: Host, reqs: seq<Request>, w: World)
    requires ControlOk(host, reqs, w) && AllFinished(w)
    ensures SameOrderByGroup(host, reqs, w.log, w.saves)
  {
    forall g ensures InGroup(reqs, w.log, g) == InGroup(reqs, w.saves, g) {
      assert Pending(w, g) == [];
      assert InGroup(reqs, w.log, g) == InGroup(reqs, w.saves, g) + Pending(w, g);
    }
  }

  /** Serialisability, whatever row calls and first loads fail and whatever the store was: when every call of any
      interleaving is finished, tables and every user's caches are exactly those of the saving calls run one at a time
      in the order of their saves, each saving call is run once and gets the reply it got, and the calls of one conflict
      group are run in the order in which they took their stripe. */
  lemma Serialisable(host: Host, reqs: seq<Request>, s: ManagerState, schedule: seq<nat>)
    requires HostOk(host) && Calls(schedule, |reqs|)
    requires AllFinished(RunSchedule(host, reqs, s, schedule))
    ensures var w := RunSchedule(host, reqs, s, schedule);
            && SameOrderByGroup(host, reqs, w.log, w.saves)
            && SameStore(w.store, Serial(host, reqs, s, w.saves), host.loads)
            && (forall k :: 0 <= k < |w.saves| ==>
                  w.pcs[w.saves[k]].ok == Atomic(Serial(host, reqs, s, w.saves[..k]), host, reqs[w.saves[k]]).ok)
  {
    RunKeeps(host, reqs, s, schedule);
    var w := RunSchedule(host, reqs, s, schedule);
    FinalOrder(host, reqs, w);
    forall k | 0 <= k < |w.saves|
      ensures w.pcs[w.saves[k]].ok == Atomic(Serial(host, reqs, s, w.saves[..k]), host, reqs[w.saves[k]]).ok
    {
      assert ReplyOk(host, reqs, s, w.saves, k, w.pcs[w.saves[k]]);
    }
  }

  // ----- Every interleaving can be completed -----

  /** A step moves one call, and changes the stripes only by taking a free one or leaving one's own. */
  ghost predicate Shaped(host: Host, r: Request, w: World, i: nat, w': World)
    requires i < |w.pcs|
  {
    var g := GroupOf(r.code);
    && |w'.pcs| == |w.pcs| && w'.pcs == w.pcs[i := w'.pcs[i]]
    && (|| (w'.stripes == w.stripes && (Saving(host, r) && Inside(w.pcs[i]) ==> Inside(w'.pcs[i])))
        || (w'.stripes == w.stripes[g := i] && Saving(host, r) && Inside(w'.pcs[i]))
        || (w'.stripes == w.stripes - {g} && Saving(host, r)))
  }

  lemma HostedShape(host: Host, r: Request, w: World, i: nat)
    requires i < |w.pcs| && r.code in host.plugins
    ensures Shaped(host, r, w, i, HostedStep(host, r, w, i))
  {
  }

  lemma StepShape(host: Host, reqs: seq<Request>, w: World, i: nat)
    requires |w.pcs| == |reqs| && i < |reqs|
    ensures Shaped(host, reqs[i], w, i, StepOf(host, reqs, w, i))
  {
    if reqs[i].code in host.plugins { HostedShape(host, reqs[i], w, i); }
  }

  lemma StepHeld(host: Host, reqs: seq<Request>, w: World, i: nat)
    requires |w.pcs| == |reqs| && i < |reqs| && StripesHeld(host, reqs, w)
    ensures StripesHeld(host, reqs, StepOf(host, reqs, w, i))
  {
    StepShape(host, reqs, w, i);
  }

  lemma {:induction false} RunHeld(host: Host, reqs: seq<Request>, s: ManagerState, schedule: seq<nat>)
    requires Calls(schedule, |reqs|)
    ensures StripesHeld(host, reqs, RunSchedule(host, reqs, s, schedule))
  {
    if schedule != [] {
      var n := |schedule| - 1;
      RunHeld(host, reqs, s, schedule[..n]);
      StepHeld(host, reqs, RunSchedule(host, reqs, s, schedule[..n]), schedule[n]);
    }
  }

  function Left(pc: Pc): nat {
    match pc
    case Waiting => 8
    case Pinned => 7
    case Ready => 6
    case ReadCombined => 5
    case ReadOwn(_) => 4
    case ReadOthers(_, _) => 3
    case Executed(_) => 2
    case Leaving(_) => 1
    case Finished(_) => 0
  }

  function TotalLeft(pcs: seq<Pc>): nat {
    if pcs == [] then 0 else TotalLeft(pcs[..|pcs| - 1]) + Left(pcs[|pcs| - 1])
  }

  lemma {:induction false} TotalMove(pcs: seq<Pc>, i: nat, pc: Pc)
    requires i < |pcs|
    ensures TotalLeft(pcs[i := pc]) == TotalLeft(pcs) - Left(pcs[i]) + Left(pc)
  {
    var n := |pcs| - 1;
    if i < n {
      TotalMove(pcs[..n], i, pc);
      assert pcs[i := pc][..n] == pcs[..n][i := pc];
    } else {
      assert pcs[i := pc][..n] == pcs[..n];
    }
  }

  /** A call that is not blocked and not finished gets nearer to its end by a step. */
  lemma StepProgress(host: Host, reqs: seq<Request>, w: World, i: nat)
    requires |w.pcs| == |reqs| && i < |reqs| && !w.pcs[i].Finished?
    requires w.pcs[i].Pinned? ==> GroupOf(reqs[i].code) !in w.stripes
    requires reqs[i].code !in host.plugins ==> w.pcs[i].Waiting?
    ensures TotalLeft(StepOf(host, reqs, w, i).pcs) < TotalLeft(w.pcs)
  {
    var pcs := StepOf(host, reqs, w, i).pcs;
    StepGoesOn(host, reqs, w, i);
    TotalMove(w.pcs, i, pcs[i]);
  }

  lemma StepGoesOn(host: Host, reqs: seq<Request>, w: World, i: nat)
    requires |w.pcs| == |reqs| && i < |reqs| && !w.pcs[i].Finished?
    requires w.pcs[i].Pinned? ==> GroupOf(reqs[i].code) !in w.stripes
    requires reqs[i].code !in host.plugins ==> w.pcs[i].Waiting?
    ensures var pcs := StepOf(host, reqs, w, i).pcs;
            |pcs| == |w.pcs| && pcs == w.pcs[i := pcs[i]] && Left(pcs[i]) < Left(w.pcs[i])
  {
    StepShape(host, reqs, w, i);
    if reqs[i].code in host.plugins { HostedGoesOn(host, reqs[i], w, i); }
  }

  lemma HostedGoesOn(host: Host, r: Request, w: World, i: nat)
    requires i < |w.pcs| && r.code in host.plugins && !w.pcs[i].Finished?
    requires w.pcs[i].Pinned? ==> GroupOf(r.code) !in w.stripes
    ensures |HostedStep(host, r, w, i).pcs| == |w.pcs| && Left(HostedStep(host, r, w, i).pcs[i]) < Left(w.pcs[i])
  {
  }

  /** A call for no plugin waits or is finished. */
  ghost predicate Unhosted(host: Host, reqs: seq<Request>, w: World)
    requires |w.pcs| == |reqs|
  {
    forall i :: 0 <= i < |reqs| && reqs[i].code !in host.plugins ==> w.pcs[i].Waiting? || w.pcs[i].Finished?
  }

  lemma {:induction false} RunUnhosted(host: Host, reqs: seq<Request>, s: ManagerState, schedule: seq<nat>)
    requires Calls(schedule, |reqs|)
    ensures Unhosted(host, reqs, RunSchedule(host, reqs, s, schedule))
  {
    if schedule != [] { RunUnhosted(host, reqs, s, schedule[..|schedule| - 1]); }
  }

  /** Some call can go on: the holder of a stripe, or any unfinished call when no stripe is held. */
  lemma SomeCallMoves(host: Host, reqs: seq<Request>, w: World) returns (i: nat)
    requires |w.pcs| == |reqs| && StripesHeld(host, reqs, w) && Unhosted(host, reqs, w) && !AllFinished(w)
    ensures i < |reqs| && TotalLeft(StepOf(host, reqs, w, i).pcs) < TotalLeft(w.pcs)
  {
    if g :| g in w.stripes {
      i := w.stripes[g];
    } else {
      i :| 0 <= i < |w.pcs| && !w.pcs[i].Finished?;
    }
    StepProgress(host, reqs, w, i);
  }

  /** No interleaving gets stuck: each can be continued until every call is finished. */
  lemma {:induction false} Completable(host: Host, reqs: seq<Request>, s: ManagerState, schedule: seq<nat>)
    returns (more: seq<nat>)
    requires Calls(schedule, |reqs|)
    ensures schedule <= more && Calls(more, |reqs|) && AllFinished(RunSchedule(host, reqs, s, more))
    decreases TotalLeft(RunSchedule(host, reqs, s, schedule).pcs)
  {
    var w := RunSchedule(host, reqs, s, schedule);
    if AllFinished(w) {
      more := schedule;
    } else {
      RunHeld(host, reqs, s, schedule);
      RunUnhosted(host, reqs, s, schedule);
      var i := SomeCallMoves(host, reqs, w);
      assert (schedule + [i])[..|schedule|] == schedule;
      more := Completable(host, reqs, s, schedule + [i]);
    }
  }
}
