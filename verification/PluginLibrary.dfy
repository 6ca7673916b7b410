/** The locks of the plugin host against the background threads that close idle plugin libraries: the library
    pin, the stripes, the plugin manager's mutex and each library's wait mutex. Time is a number that only grows. */
module PluginLibrary {

  /** Milliseconds a library must have been idle before it is closed. */
  const TIMER_TIMEOUT := 180000

  type Lib = string

  /** A lock; every lock but the pin has one holder. Requests share the pin, unload threads take it alone. */
  datatype Lock = Pin | Stripe(group: int) | Mutex | Wait(lib: Lib)

  /** `libs` are the libraries the call loads and `home` the one of its plugin. An internal call, such as the
      removal of an admin's item or the dispatch of an event, runs plugin code under the mutex. */
  datatype Role =
    | Request(libs: set<Lib>, home: Lib, saving: bool, group: int)
    | Internal(libs: set<Lib>, home: Lib)
    | Unloader(lib: Lib)

  datatype Phase =
    | Start
    | Loading(todo: set<Lib>, stamps: map<Lib, int>)
    | Notify(lib: Lib, todo: set<Lib>, stamps: map<Lib, int>)
    | Notifying(todo: set<Lib>, stamps: map<Lib, int>, lib: Lib)
    | Unpinned(stamps: map<Lib, int>)
    | Pinned(stamps: map<Lib, int>, at: int)
    | Running(stamps: map<Lib, int>, at: int)
    | RunNotify(lib: Lib, stamps: map<Lib, int>, at: int)
    | RunNotifying(stamps: map<Lib, int>, at: int, lib: Lib)
    | Finished
    | Sleeping
    | Waking
    | WantsPin
    | WantsMutex
    | Deciding

  /** `extras` are the libraries that are not built in; they are loaded together. */
  datatype Config = Config(roles: seq<Role>, extras: set<Lib>)

  datatype World = World(now: int, open: set<Lib>, registered: set<Lib>, lastCall: map<Lib, int>, phases: seq<Phase>)

  ghost predicate ConfigOk(c: Config) {
    forall t :: 0 <= t < |c.roles| && !c.roles[t].Unloader? ==>
      c.roles[t].home in c.roles[t].libs && (c.roles[t].home in c.extras ==> c.extras <= c.roles[t].libs)
  }

  /** The libraries whose closing unregisters the plugins of `home`. */
  function Kin(c: Config, home: Lib): set<Lib> {
    if home in c.extras then c.extras else {home}
  }

  // ----- Locks held and wanted -----

  function StripeOf(r: Role): set<Lock> {
    if r.Request? && r.saving then {Stripe(r.group)} else {}
  }

  function RunLocks(r: Role): set<Lock> {
    if r.Request? then {Pin} + StripeOf(r) else {Mutex}
  }

  function Held(r: Role, p: Phase): set<Lock> {
    match p
    case Loading(_, _) => {Mutex}
    case Notify(_, _, _) => {Mutex}
    case Notifying(_, _, lib) => {Mutex, Wait(lib)}
    case Pinned(_, _) => {Pin}
    case Running(_, _) => RunLocks(r)
    case RunNotify(_, _, _) => RunLocks(r)
    case RunNotifying(_, _, lib) => RunLocks(r) + {Wait(lib)}
    case Waking => if r.Unloader? then {Wait(r.lib)} else {}
    case WantsMutex => {Pin}
    case Deciding => {Pin, Mutex}
    case _ => {}
  }

  /** The lock the next step takes, if it takes one. */
  function Wanted(r: Role, p: Phase): set<Lock> {
    match p
    case Start => {Mutex}
    case Notify(lib, _, _) => {Wait(lib)}
    case Unpinned(_) => {Pin}
    case Pinned(_, _) => StripeOf(r)
    case RunNotify(lib, _, _) => {Wait(lib)}
    case Sleeping => if r.Unloader? then {Wait(r.lib)} else {}
    case WantsPin => {Pin}
    case WantsMutex => {Mutex}
    case _ => {}
  }

  predicate Shareable(r: Role, s: Role, l: Lock) {
    l == Pin && !r.Unloader? && !s.Unloader?
  }

  /** Thread `u` holds a lock that thread `t` wants and cannot share. */
  ghost predicate WaitsFor(c: Config, w: World, t: nat, u: nat)
    requires |w.phases| == |c.roles| && t < |c.roles| && u < |c.roles|
  {
    t != u && exists l :: l in Wanted(c.roles[t], w.phases[t]) && l in Held(c.roles[u], w.phases[u])
                          && !Shareable(c.roles[t], c.roles[u], l)
  }

  ghost predicate Blocked(c: Config, w: World, t: nat)
    requires |w.phases| == |c.roles| && t < |c.roles|
  {
    exists u :: 0 <= u < |c.roles| && WaitsFor(c, w, t, u)
  }

  // ----- Steps -----

  /** Time passes, or thread `t` takes its next step: `lib` is the library it loads next, `more` whether the running
      plugin code calls the loader again, `mayClose` whether no plugin of the library asks to stay. */
  datatype Event = Tick(ms: nat) | Act(t: nat, lib: Lib, more: bool, mayClose: bool)

  function Moved(w: World, t: nat, p: Phase): World
    requires t < |w.phases|
  {
    w.(phases := w.phases[t := p])
  }

  /** `LoadPlugin` stamps the library; a library not open yet is opened and its plugins register. */
  function Stamped(w: World, lib: Lib): World {
    if lib in w.open then w.(lastCall := w.lastCall[lib := w.now])
    else w.(lastCall := w.lastCall[lib := w.now], open := w.open + {lib}, registered := w.registered + {lib})
  }

  /** Closing an extra library unregisters the plugins of all extra libraries. */
  function Closed(c: Config, w: World, lib: Lib): World {
    w.(open := w.open - {lib}, registered := w.registered - Kin(c, lib))
  }

  predicate Idle(w: World, lib: Lib) {
    lib in w.open && lib in w.lastCall && w.now - w.lastCall[lib] >= TIMER_TIMEOUT
  }

  function CallerStep(c: Config, w: World, r: Role, e: Event): World
    requires e.Act? && e.t < |w.phases| && !r.Unloader?
  {
    var t := e.t;
    match w.phases[t]
    case Start => Moved(w, t, Loading(r.libs, map[]))
    case Loading(todo, stamps) =>
      if todo == {} then
        Moved(w, t, if r.home !in w.registered then Finished else if r.Request? then Unpinned(stamps)
                                                                  else Running(stamps, w.now))
      else if e.lib !in todo then w
      else if e.lib in w.open then Moved(Stamped(w, e.lib), t, Notify(e.lib, todo - {e.lib}, stamps[e.lib := w.now]))
      else Moved(Stamped(w, e.lib), t, Loading(todo - {e.lib}, stamps[e.lib := w.now]))
    case Notify(lib, todo, stamps) => Moved(w, t, Notifying(todo, stamps, lib))
    case Notifying(todo, stamps, _) => Moved(w, t, Loading(todo, stamps))
    case Unpinned(stamps) => Moved(w, t, Pinned(stamps, w.now))
    case Pinned(stamps, at) => Moved(w, t, Running(stamps, at))
    case Running(stamps, at) =>
      if !e.more then Moved(w, t, Finished)
      else if e.lib !in r.libs then w
      else if e.lib in w.open then Moved(Stamped(w, e.lib), t, RunNotify(e.lib, stamps, at))
      else Stamped(w, e.lib)
    case RunNotify(lib, stamps, at) => Moved(w, t, RunNotifying(stamps, at, lib))
    case RunNotifying(stamps, at, _) => Moved(w, t, Running(stamps, at))
    case _ => w
  }

  function UnloaderStep(c: Config, w: World, r: Role, e: Event): World
    requires e.Act? && e.t < |w.phases| && r.Unloader?
  {
    match w.phases[e.t]
    case Sleeping => Moved(w, e.t, Waking)
    case Waking => Moved(w, e.t, WantsPin)
    case WantsPin => Moved(w, e.t, WantsMutex)
    case WantsMutex => Moved(w, e.t, Deciding)
    case Deciding => Moved(if Idle(w, r.lib) && e.mayClose then Closed(c, w, r.lib) else w, e.t, Sleeping)
    case _ => w
  }

  ghost function Step(c: Config, w: World, e: Event): World
    requires |w.phases| == |c.roles|
  {
    if e.Tick? then w.(now := w.now + e.ms)
    else if e.t >= |c.roles| || Blocked(c, w, e.t) then w
    else if c.roles[e.t].Unloader? then UnloaderStep(c, w, c.roles[e.t], e) else CallerStep(c, w, c.roles[e.t], e)
  }

  function InitialWorld(c: Config, now: int): World {
    World(now, {}, {}, map[],
          seq(|c.roles|, t requires 0 <= t < |c.roles| => if c.roles[t].Unloader? then Sleeping else Start))
  }

  ghost function Run(c: Config, now: int, events: seq<Event>): (w: World)
    ensures |w.phases| == |c.roles|
  {
    if events == [] then InitialWorld(c, now)
    else Step(c, Run(c, now, events[..|events| - 1]), events[|events| - 1])
  }

  // ----- The invariant -----

  predicate Waits(p: Phase) {
    p.Sleeping? || p.Waking? || p.WantsPin? || p.WantsMutex? || p.Deciding?
  }

  /** Only requests pin, and only unload threads wait. */
  predicate PhaseFits(r: Role, p: Phase) {
    && (Waits(p) <==> r.Unloader?)
    && (p.Unpinned? || p.Pinned? ==> r.Request?)
  }

  ghost predicate Exclusive(c: Config, w: World)
    requires |w.phases| == |c.roles|
  {
    forall t, u, l ::
      0 <= t < u < |c.roles| && l in Held(c.roles[t], w.phases[t]) && l in Held(c.roles[u], w.phases[u]) ==>
      Shareable(c.roles[t], c.roles[u], l)
  }

  predicate RunsPluginCode(p: Phase) {
    p.Running? || p.RunNotify? || p.RunNotifying?
  }

  ghost predicate Kept(w: World, stamps: map<Lib, int>) {
    forall l :: l in stamps ==> l in w.lastCall && w.lastCall[l] >= stamps[l]
  }

  /** The call's stamp of some library that matters to it is too old. */
  ghost predicate Expired(c: Config, home: Lib, stamps: map<Lib, int>, now: int) {
    exists l :: l in Kin(c, home) && l in stamps && now - stamps[l] >= TIMER_TIMEOUT
  }

  ghost predicate CallerOk(c: Config, w: World, r: Role, p: Phase)
    requires !r.Unloader?
  {
    match p
    case Loading(todo, stamps) => stamps.Keys + todo == r.libs && stamps.Keys <= w.open && Kept(w, stamps)
    case Notify(_, todo, stamps) => stamps.Keys + todo == r.libs && stamps.Keys <= w.open && Kept(w, stamps)
    case Notifying(todo, stamps, _) => stamps.Keys + todo == r.libs && stamps.Keys <= w.open && Kept(w, stamps)
    case Unpinned(stamps) =>
      Kept(w, stamps) && stamps.Keys == r.libs && (r.home in w.registered || Expired(c, r.home, stamps, w.now))
    case Pinned(stamps, at) => RunOk(c, w, r, stamps, at)
    case Running(stamps, at) => RunOk(c, w, r, stamps, at)
    case RunNotify(_, stamps, at) => RunOk(c, w, r, stamps, at)
    case RunNotifying(stamps, at, _) => RunOk(c, w, r, stamps, at)
    case _ => true
  }

  ghost predicate RunOk(c: Config, w: World, r: Role, stamps: map<Lib, int>, at: int)
    requires !r.Unloader?
  {
    stamps.Keys == r.libs && (r.home in w.registered || (r.Request? && Expired(c, r.home, stamps, at)))
  }

  ghost predicate Inv(c: Config, w: World) {
    && |w.phases| == |c.roles|
    && (forall t :: 0 <= t < |c.roles| ==> PhaseFits(c.roles[t], w.phases[t]))
    && Exclusive(c, w)
    && w.registered <= w.open <= w.registered + c.extras
    && (forall l :: l in w.lastCall ==> w.lastCall[l] <= w.now)
    && (forall t :: 0 <= t < |c.roles| && !c.roles[t].Unloader? ==> CallerOk(c, w, c.roles[t], w.phases[t]))
  }

  // ----- Every step keeps the invariant -----

  lemma MoveKeepsExclusive(c: Config, w: World, t: nat, p: Phase, w': World)
    requires |w.phases| == |c.roles| && t < |c.roles| && Exclusive(c, w) && !Blocked(c, w, t)
    requires Held(c.roles[t], p) <= Held(c.roles[t], w.phases[t]) + Wanted(c.roles[t], w.phases[t])
    requires w'.phases == w.phases[t := p]
    ensures Exclusive(c, w')
  {
    forall u, v, l | 0 <= u < v < |c.roles| && l in Held(c.roles[u], w'.phases[u]) &&
      l in Held(c.roles[v], w'.phases[v])
      ensures Shareable(c.roles[u], c.roles[v], l)
    {
      if u == t && l !in Held(c.roles[u], w.phases[u]) { assert !WaitsFor(c, w, t, v); }
      if v == t && l !in Held(c.roles[v], w.phases[v]) { assert !WaitsFor(c, w, t, u); }
    }
  }

  lemma CallerMoves(c: Config, w: World, e: Event)
    requires Inv(c, w) && e.Act? && e.t < |c.roles| && !c.roles[e.t].Unloader?
    ensures var w' := CallerStep(c, w, c.roles[e.t], e);
            var r := c.roles[e.t];
            && |w'.phases| == |w.phases| && w'.phases == w.phases[e.t := w'.phases[e.t]]
            && PhaseFits(r, w'.phases[e.t])
            && Held(r, w'.phases[e.t]) <= Held(r, w.phases[e.t]) + Wanted(r, w.phases[e.t])
            && (w' == Moved(w, e.t, w'.phases[e.t]) || w' == Moved(Stamped(w, e.lib), e.t, w'.phases[e.t]))
  {
    assert PhaseFits(c.roles[e.t], w.phases[e.t]);
  }

  lemma CallerStaysOk(c: Config, w: World, e: Event)
    requires ConfigOk(c) && Inv(c, w) && e.Act? && e.t < |c.roles| && !c.roles[e.t].Unloader?
    ensures var w' := CallerStep(c, w, c.roles[e.t], e);
            CallerOk(c, w', c.roles[e.t], w'.phases[e.t])
  {
    assert PhaseFits(c.roles[e.t], w.phases[e.t]) && CallerOk(c, w, c.roles[e.t], w.phases[e.t]);
  }

  /** Loading a library does not disturb the other calls. */
  lemma OthersStayOk(c: Config, w: World, lib: Lib, r: Role, p: Phase)
    requires !r.Unloader? && CallerOk(c, w, r, p) && forall l :: l in w.lastCall ==> w.lastCall[l] <= w.now
    ensures CallerOk(c, Stamped(w, lib), r, p)
  {
  }

  lemma CloseLeavesOk(c: Config, w: World, lib: Lib, r: Role, p: Phase)
    requires !r.Unloader? && CallerOk(c, w, r, p) && Idle(w, lib) && Pin !in Held(r, p) && Mutex !in Held(r, p)
    requires r.home in r.libs && (r.home in c.extras ==> c.extras <= r.libs)
    ensures CallerOk(c, Closed(c, w, lib), r, p)
  {
    if p.Unpinned? && r.home in w.registered && r.home in Kin(c, lib) {
      assert lib in Kin(c, r.home) && lib in p.stamps && w.now - p.stamps[lib] >= TIMER_TIMEOUT;
    }
  }

  lemma TickKeeps(c: Config, w: World, ms: nat)
    requires Inv(c, w)
    ensures Inv(c, w.(now := w.now + ms))
  {
    var w' := w.(now := w.now + ms);
    forall t | 0 <= t < |c.roles| && !c.roles[t].Unloader? ensures CallerOk(c, w', c.roles[t], w'.phases[t]) {
      assert CallerOk(c, w, c.roles[t], w.phases[t]);
    }
  }

  lemma CallerStepKeeps(c: Config, w: World, e: Event)
    requires ConfigOk(c) && Inv(c, w) && e.Act? && e.t < |c.roles| && !c.roles[e.t].Unloader? && !Blocked(c, w, e.t)
    ensures Inv(c, CallerStep(c, w, c.roles[e.t], e))
  {
    var w' := CallerStep(c, w, c.roles[e.t], e);
    CallerMoves(c, w, e);
    MoveKeepsExclusive(c, w, e.t, w'.phases[e.t], w');
    CallerStaysOk(c, w, e);
    forall t | 0 <= t < |c.roles| && !c.roles[t].Unloader? && t != e.t
      ensures CallerOk(c, w', c.roles[t], w'.phases[t])
    {
      assert CallerOk(c, w, c.roles[t], w.phases[t]);
      OthersStayOk(c, w, e.lib, c.roles[t], w.phases[t]);
    }
  }

  /** The thread about to decide holds the pin alone and the mutex. */
  lemma DecidingIsAlone(c: Config, w: World, t: nat, u: nat)
    requires Inv(c, w) && t < |c.roles| && u < |c.roles| && t != u && w.phases[t].Deciding?
    ensures Pin !in Held(c.roles[u], w.phases[u]) && Mutex !in Held(c.roles[u], w.phases[u])
  {
    assert PhaseFits(c.roles[t], w.phases[t]);
    assert Pin in Held(c.roles[t], w.phases[t]) && Mutex in Held(c.roles[t], w.phases[t]);
    assert !Shareable(c.roles[t], c.roles[u], Pin) && !Shareable(c.roles[u], c.roles[t], Pin);
    assert !Shareable(c.roles[t], c.roles[u], Mutex) && !Shareable(c.roles[u], c.roles[t], Mutex);
  }

  lemma UnloaderStepKeeps(c: Config, w: World, e: Event)
    requires ConfigOk(c) && Inv(c, w) && e.Act? && e.t < |c.roles| && c.roles[e.t].Unloader? && !Blocked(c, w, e.t)
    ensures Inv(c, UnloaderStep(c, w, c.roles[e.t], e))
  {
    var w' := UnloaderStep(c, w, c.roles[e.t], e);
    var lib := c.roles[e.t].lib;
    assert PhaseFits(c.roles[e.t], w.phases[e.t]);
    MoveKeepsExclusive(c, w, e.t, w'.phases[e.t], w');
    forall t | 0 <= t < |c.roles| && !c.roles[t].Unloader? ensures CallerOk(c, w', c.roles[t], w'.phases[t]) {
      assert CallerOk(c, w, c.roles[t], w.phases[t]);
      if w.phases[e.t].Deciding? && Idle(w, lib) && e.mayClose {
        DecidingIsAlone(c, w, e.t, t);
        CloseLeavesOk(c, w, lib, c.roles[t], w.phases[t]);
      }
    }
  }

  lemma {:induction false} RunKeeps(c: Config, now: int, events: seq<Event>)
    requires ConfigOk(c)
    ensures Inv(c, Run(c, now, events))
  {
    if events == [] {
      var w := InitialWorld(c, now);
      forall t | 0 <= t < |c.roles|
        ensures PhaseFits(c.roles[t], w.phases[t]) && Held(c.roles[t], w.phases[t]) == {} { }
    } else {
      var w, e := Run(c, now, events[..|events| - 1]), events[|events| - 1];
      RunKeeps(c, now, events[..|events| - 1]);
      if e.Tick? {
        TickKeeps(c, w, e.ms);
      } else if e.t < |c.roles| && !Blocked(c, w, e.t) {
        if c.roles[e.t].Unloader? { UnloaderStepKeeps(c, w, e); } else { CallerStepKeeps(c, w, e); }
      }
    }
  }

  // ----- Library safety -----

  /** No step closes a library while any thread runs plugin code, under the pin or under the mutex. */
  lemma NoCloseWhileRunning(c: Config, now: int, events: seq<Event>, e: Event, lib: Lib)
    requires ConfigOk(c)
    requires lib in Run(c, now, events).open && lib !in Run(c, now, events + [e]).open
    ensures var w := Run(c, now, events);
            forall t :: 0 <= t < |c.roles| ==> !RunsPluginCode(w.phases[t])
  {
    var w := Run(c, now, events);
    assert (events + [e])[..|events|] == events;
    RunKeeps(c, now, events);
    assert e.Act? && e.t < |c.roles|;
    assert c.roles[e.t].Unloader? && w.phases[e.t].Deciding? by {
      if !c.roles[e.t].Unloader? { CallerMoves(c, w, e); }
    }
    forall t | 0 <= t < |c.roles| ensures !RunsPluginCode(w.phases[t]) {
      if t != e.t {
        DecidingIsAlone(c, w, e.t, t);
        assert PhaseFits(c.roles[t], w.phases[t]);
      }
    }
  }

  /** A request that pinned while none of the stamps that matter to it was TIMER_TIMEOUT old finds its plugin
      registered, and its library open, from the pin to the end; so does every internal call. */
  lemma PinnedInTimeFindsPlugin(c: Config, now: int, events: seq<Event>, t: nat)
    requires ConfigOk(c) && t < |c.roles|
    requires var w := Run(c, now, events);
             && (RunsPluginCode(w.phases[t]) || w.phases[t].Pinned?)
             && (c.roles[t].Request? ==> !Expired(c, c.roles[t].home, w.phases[t].stamps, w.phases[t].at))
    ensures var w := Run(c, now, events);
            !c.roles[t].Unloader? && c.roles[t].home in w.registered && c.roles[t].home in w.open
  {
    RunKeeps(c, now, events);
    var w := Run(c, now, events);
    assert PhaseFits(c.roles[t], w.phases[t]);
    assert CallerOk(c, w, c.roles[t], w.phases[t]);
  }

  predicate IsLoading(p: Phase) {
    p.Loading? || p.Notify? || p.Notifying?
  }

  /** What loading under the mutex makes of a library: a registered one stays, a closed one is closed or registered, and
      an open one without its plugins stays so. */
  ghost predicate StatusKept(was: World, w: World, lib: Lib) {
    && (lib in was.registered ==> lib in w.registered)
    && (lib !in was.open ==> lib !in w.open || lib in w.registered)
    && (lib in was.open && lib !in was.registered ==> lib in w.open && lib !in w.registered)
  }

  lemma StampKeepsStatus(was: World, w: World, lib: Lib, other: Lib)
    requires StatusKept(was, w, lib)
    ensures StatusKept(was, Stamped(w, other), lib)
  {
  }

  /** Nobody closes a library while a call is loading. */
  lemma LoadingStep(c: Config, was: World, w: World, e: Event, t: nat, lib: Lib)
    requires ConfigOk(c) && Inv(c, w) && t < |c.roles| && !c.roles[t].Unloader?
    requires IsLoading(w.phases[t]) && StatusKept(was, w, lib)
    ensures StatusKept(was, Step(c, w, e), lib) && !Step(c, w, e).phases[t].Start?
  {
    if e.Act? && e.t < |c.roles| && !Blocked(c, w, e.t) {
      if c.roles[e.t].Unloader? {
        assert PhaseFits(c.roles[e.t], w.phases[e.t]);
        if w.phases[e.t].Deciding? { DecidingIsAlone(c, w, e.t, t); }
      } else {
        CallerMoves(c, w, e);
        StampKeepsStatus(was, w, lib, e.lib);
      }
    }
  }

  /** A call that is loading was loading, or took the mutex, one step before. */
  lemma CameFrom(c: Config, w: World, e: Event, t: nat)
    requires Inv(c, w) && t < |c.roles| && !c.roles[t].Unloader?
    ensures IsLoading(Step(c, w, e).phases[t]) && !w.phases[t].Start? ==> IsLoading(w.phases[t])
    ensures Step(c, w, e).phases[t].Start? ==> w.phases[t].Start?
  {
    assert PhaseFits(c.roles[t], w.phases[t]);
    if e.Act? && e.t < |c.roles| && !Blocked(c, w, e.t) && !c.roles[e.t].Unloader? { CallerMoves(c, w, e); }
  }

  lemma {:induction false} StatusWhileLoading(c: Config, now: int, events: seq<Event>, k: nat, t: nat)
    requires ConfigOk(c) && t < |c.roles| && !c.roles[t].Unloader? && k < |events|
    requires Run(c, now, events[..k]).phases[t].Start? && !Run(c, now, events[..k + 1]).phases[t].Start?
    ensures var w := Run(c, now, events);
            !w.phases[t].Start? && (IsLoading(w.phases[t]) ==> StatusKept(Run(c, now, events[..k]), w, c.roles[t].home))
  {
    var init, e := events[..|events| - 1], events[|events| - 1];
    RunKeeps(c, now, init);
    CameFrom(c, Run(c, now, init), e, t);
    if k == |events| - 1 {
      assert events[..k + 1] == events && events[..k] == init;
      FirstStep(c, Run(c, now, init), e, t);
    } else {
      assert init[..k] == events[..k] && init[..k + 1] == events[..k + 1];
      StatusWhileLoading(c, now, init, k, t);
      if IsLoading(Run(c, now, init).phases[t]) {
        LoadingStep(c, Run(c, now, events[..k]), Run(c, now, init), e, t, c.roles[t].home);
      }
    }
  }

  lemma FirstStep(c: Config, w: World, e: Event, t: nat)
    requires Inv(c, w) && t < |c.roles| && !c.roles[t].Unloader? && w.phases[t].Start?
    requires !Step(c, w, e).phases[t].Start?
    ensures StatusKept(w, Step(c, w, e), c.roles[t].home)
  {
    assert e.Act? && e.t == t;
  }

  /** When the loading of a call is over, its plugin is registered exactly when, at the moment the call took the mutex,
      it was registered already or its library was not open. */
  lemma FoundIff(c: Config, now: int, events: seq<Event>, k: nat, t: nat)
    requires ConfigOk(c) && t < |c.roles| && !c.roles[t].Unloader? && k < |events|
    requires Run(c, now, events[..k]).phases[t].Start? && !Run(c, now, events[..k + 1]).phases[t].Start?
    requires Run(c, now, events).phases[t].Loading? && Run(c, now, events).phases[t].todo == {}
    ensures var was := Run(c, now, events[..k]);
            c.roles[t].home in Run(c, now, events).registered <==>
            c.roles[t].home in was.registered || c.roles[t].home !in was.open
  {
    RunKeeps(c, now, events);
    var w := Run(c, now, events);
    assert CallerOk(c, w, c.roles[t], w.phases[t]);
    StatusWhileLoading(c, now, events, k, t);
  }

  /** A call for a plugin of a built-in library always finds it when the loading is over. */
  lemma BuiltInIsFound(c: Config, now: int, events: seq<Event>, t: nat)
    requires ConfigOk(c) && t < |c.roles| && !c.roles[t].Unloader? && c.roles[t].home !in c.extras
    requires Run(c, now, events).phases[t].Loading? && Run(c, now, events).phases[t].todo == {}
    ensures c.roles[t].home in Run(c, now, events).registered
  {
    RunKeeps(c, now, events);
    var w := Run(c, now, events);
    assert CallerOk(c, w, c.roles[t], w.phases[t]);
  }

  // ----- Deadlock freedom -----

  /** The order in which every thread takes its locks. */
  function Rank(l: Lock): nat {
    match l
    case Pin => 1
    case Stripe(_) => 2
    case Mutex => 3
    case Wait(_) => 4
  }

  lemma LocksInOrder(r: Role, p: Phase, held: Lock, wanted: Lock)
    requires PhaseFits(r, p) && held in Held(r, p) && wanted in Wanted(r, p)
    ensures Rank(held) < Rank(wanted)
  {
  }

  /** A walk along the waits: each thread waits for the next. */
  ghost predicate WaitChain(c: Config, w: World, chain: seq<nat>)
    requires |w.phases| == |c.roles|
  {
    && (forall i :: 0 <= i < |chain| ==> chain[i] < |c.roles|)
    && forall i :: 0 <= i < |chain| - 1 ==> WaitsFor(c, w, chain[i], chain[i + 1])
  }

  ghost function WantedRank(c: Config, w: World, t: nat): nat
    requires |w.phases| == |c.roles| && t < |c.roles|
  {
    if exists l :: l in Wanted(c.roles[t], w.phases[t])
    then var l :| l in Wanted(c.roles[t], w.phases[t]); Rank(l) else 5
  }

  lemma RankGrows(c: Config, w: World, t: nat, u: nat)
    requires Inv(c, w) && t < |c.roles| && u < |c.roles| && WaitsFor(c, w, t, u)
    ensures WantedRank(c, w, t) < WantedRank(c, w, u)
  {
    var l :| l in Wanted(c.roles[t], w.phases[t]) && l in Held(c.roles[u], w.phases[u]);
    assert WantedRank(c, w, t) == Rank(l) <= 4;
    if exists m :: m in Wanted(c.roles[u], w.phases[u]) {
      var m :| m in Wanted(c.roles[u], w.phases[u]) && Rank(m) == WantedRank(c, w, u);
      LocksInOrder(c.roles[u], w.phases[u], l, m);
    }
  }

  lemma {:induction false} RankGrowsAlong(c: Config, w: World, chain: seq<nat>)
    requires Inv(c, w) && |chain| > 1 && WaitChain(c, w, chain)
    ensures WantedRank(c, w, chain[0]) + |chain| - 1 <= WantedRank(c, w, chain[|chain| - 1])
  {
    var n := |chain| - 1;
    if n > 1 {
      var init := chain[..n];
      assert forall i :: 0 <= i < |init| ==> init[i] == chain[i];
      RankGrowsAlong(c, w, init);
    }
    RankGrows(c, w, chain[n - 1], chain[n]);
  }

  /** Waits never form a cycle, in any reachable state, and are at most four threads deep. */
  lemma NoWaitCycle(c: Config, now: int, events: seq<Event>, chain: seq<nat>)
    requires ConfigOk(c) && |chain| > 1 && WaitChain(c, Run(c, now, events), chain)
    ensures chain[0] != chain[|chain| - 1] && |chain| <= 5
  {
    RunKeeps(c, now, events);
    RankGrowsAlong(c, Run(c, now, events), chain);
  }

  /** From a blocked thread the waits lead to a thread that holds a lock and can step. */
  lemma {:induction false} SomeHolderMoves(c: Config, w: World, t: nat) returns (u: nat)
    requires Inv(c, w) && t < |c.roles| && Blocked(c, w, t)
    ensures u < |c.roles| && !Blocked(c, w, u) && Held(c.roles[u], w.phases[u]) != {}
    decreases 5 - WantedRank(c, w, t)
  {
    u :| 0 <= u < |c.roles| && WaitsFor(c, w, t, u);
    RankGrows(c, w, t, u);
    if Blocked(c, w, u) { u := SomeHolderMoves(c, w, u); }
  }

  /** A thread that holds a lock and is not blocked has a step that changes its phase. */
  lemma UnblockedHolderSteps(c: Config, w: World, t: nat)
    requires Inv(c, w) && t < |c.roles| && !Blocked(c, w, t) && Held(c.roles[t], w.phases[t]) != {}
    ensures exists e: Event :: e.Act? && e.t == t && Step(c, w, e).phases[t] != w.phases[t]
  {
    var r, p := c.roles[t], w.phases[t];
    assert PhaseFits(r, p);
    var lib := if p.Loading? && p.todo != {} then SomeLib(p.todo) else "";
    var e := Act(t, lib, false, false);
    assert Step(c, w, e).phases[t] != p;
  }

  ghost function SomeLib(libs: set<Lib>): Lib
    requires libs != {}
  {
    var l :| l in libs;
    l
  }

  /** Deadlock freedom: in every reachable state, if any thread is blocked, some lock holder can make progress. */
  lemma NoDeadlock(c: Config, now: int, events: seq<Event>, t: nat)
    requires ConfigOk(c) && t < |c.roles| && Blocked(c, Run(c, now, events), t)
    ensures var w := Run(c, now, events);
            exists u: int, e: Event :: 0 <= u < |c.roles| && Held(c.roles[u], w.phases[u]) != {} && e.Act? && e.t == u
                           && Step(c, w, e).phases[u] != w.phases[u]
  {
    RunKeeps(c, now, events);
    var w := Run(c, now, events);
    var u := SomeHolderMoves(c, w, t);
    UnblockedHolderSteps(c, w, u);
  }

  // ----- What goes wrong outside the conditions -----

  lemma NextStep(c: Config, now: int, events: seq<Event>, e: Event, t: nat)
    requires t < |c.roles| && e.Act? && e.t == t
    requires forall u :: 0 <= u < |c.roles| && u != t ==> Held(c.roles[u], Run(c, now, events).phases[u]) == {}
    ensures Run(c, now, events + [e]) ==
            if c.roles[t].Unloader? then UnloaderStep(c, Run(c, now, events), c.roles[t], e)
            else CallerStep(c, Run(c, now, events), c.roles[t], e)
  {
    assert (events + [e])[..|events|] == events;
  }

  lemma NextTick(c: Config, now: int, events: seq<Event>, ms: nat)
    ensures Run(c, now, events + [Tick(ms)]) == Run(c, now, events).(now := Run(c, now, events).now + ms)
  {
    assert (events + [Tick(ms)])[..|events|] == events;
  }

  /** One undisturbed step, from a known state to a known state. */
  lemma StepTo(c: Config, now: int, events: seq<Event>, e: Event, w: World, w': World)
    requires Run(c, now, events) == w && e.Act? && e.t < |c.roles|
    requires forall u :: 0 <= u < |c.roles| && u != e.t ==> Held(c.roles[u], w.phases[u]) == {}
    requires w' == if c.roles[e.t].Unloader? then UnloaderStep(c, w, c.roles[e.t], e)
                   else CallerStep(c, w, c.roles[e.t], e)
    ensures Run(c, now, events + [e]) == w'
  {
    NextStep(c, now, events, e, e.t);
  }

  /** An unload thread that is not disturbed: five steps from its sleep to the closing of an idle library. */
  lemma UnloadAlone(c: Config, now: int, events: seq<Event>, t: nat) returns (after: seq<Event>)
    requires t < |c.roles| && c.roles[t].Unloader?
    requires var w := Run(c, now, events);
             && w.phases[t].Sleeping? && Idle(w, c.roles[t].lib)
             && forall u :: 0 <= u < |c.roles| && u != t ==> Held(c.roles[u], w.phases[u]) == {}
    ensures Run(c, now, after) == Closed(c, Run(c, now, events), c.roles[t].lib)
  {
    var e := Act(t, "", false, true);
    var w := Run(c, now, events);
    after := events;
    after := UnloadStep(c, now, after, t, w, Moved(w, t, Waking));
    after := UnloadStep(c, now, after, t, Moved(w, t, Waking), Moved(w, t, WantsPin));
    after := UnloadStep(c, now, after, t, Moved(w, t, WantsPin), Moved(w, t, WantsMutex));
    after := UnloadStep(c, now, after, t, Moved(w, t, WantsMutex), Moved(w, t, Deciding));
    assert Moved(Closed(c, w, c.roles[t].lib), t, Sleeping) == Closed(c, w, c.roles[t].lib);
    after := UnloadStep(c, now, after, t, Moved(w, t, Deciding), Closed(c, w, c.roles[t].lib));
  }

  lemma UnloadStep(c: Config, now: int, events: seq<Event>, t: nat, w: World, w': World) returns (after: seq<Event>)
    requires t < |c.roles| && c.roles[t].Unloader? && Run(c, now, events) == w
    requires forall u :: 0 <= u < |c.roles| && u != t ==> Held(c.roles[u], w.phases[u]) == {}
    requires w' == UnloaderStep(c, w, c.roles[t], Act(t, "", false, true))
    ensures Run(c, now, after) == w'
  {
    after := events + [Act(t, "", false, true)];
    StepTo(c, now, events, Act(t, "", false, true), w, w');
  }

  const LATE_PIN := Config([Request({"a"}, "a", false, 0), Unloader("a")], {})

  lemma LoadAlone() returns (events: seq<Event>)
    ensures Run(LATE_PIN, 0, events) == World(0, {"a"}, {"a"}, map["a" := 0], [Unpinned(map["a" := 0]), Sleeping])
  {
    var c, e := LATE_PIN, Act(0, "a", false, false);
    var w0 := World(0, {}, {}, map[], [Start, Sleeping]);
    var w1 := World(0, {}, {}, map[], [Loading({"a"}, map[]), Sleeping]);
    var w2 := World(0, {"a"}, {"a"}, map["a" := 0], [Loading({}, map["a" := 0]), Sleeping]);
    var w3 := World(0, {"a"}, {"a"}, map["a" := 0], [Unpinned(map["a" := 0]), Sleeping]);
    assert Run(c, 0, []) == w0;
    StepTo(c, 0, [], e, w0, w1);
    assert {} + {"a"} == {"a"} && {"a"} - {"a"} == {};
    StepTo(c, 0, [] + [e], e, w1, w2);
    StepTo(c, 0, [] + [e] + [e], e, w2, w3);
    events := [] + [e] + [e] + [e];
  }

  /** The time limit is exact: a request that pins TIMER_TIMEOUT after its stamp can find its library closed. */
  lemma LatePinCanFindLibraryClosed() returns (events: seq<Event>)
    ensures ConfigOk(LATE_PIN)
    ensures var w := Run(LATE_PIN, 0, events);
            && w.phases[0].Pinned? && "a" in w.phases[0].stamps
            && w.phases[0].at - w.phases[0].stamps["a"] == TIMER_TIMEOUT && "a" !in w.open
  {
    var loaded := LoadAlone();
    NextTick(LATE_PIN, 0, loaded, TIMER_TIMEOUT);
    var closed := UnloadAlone(LATE_PIN, 0, loaded + [Tick(TIMER_TIMEOUT)], 1);
    var e := Act(0, "a", false, false);
    NextStep(LATE_PIN, 0, closed, e, 0);
    events := closed + [e];
  }

  const TWO_EXTRAS := Config([Request({"x", "y"}, "x", false, 0), Unloader("x"), Internal({"x", "y"}, "y")], {"x", "y"})

  lemma LoadExtras() returns (events: seq<Event>)
    ensures Run(TWO_EXTRAS, 0, events) ==
            World(0, {"x", "y"}, {"x", "y"}, map["x" := 0, "y" := 0],
                  [Unpinned(map["x" := 0, "y" := 0]), Sleeping, Start])
  {
    var c := TWO_EXTRAS;
    var x, y := Act(0, "x", false, false), Act(0, "y", false, false);
    assert Run(c, 0, []).phases == [Start, Sleeping, Start];
    NextStep(c, 0, [], x, 0);
    var e1 := [] + [x];
    assert Run(c, 0, e1).phases == [Loading({"x", "y"}, map[]), Sleeping, Start];
    NextStep(c, 0, e1, x, 0);
    var e2 := e1 + [x];
    assert {"x", "y"} - {"x"} == {"y"} && Run(c, 0, e2).phases == [Loading({"y"}, map["x" := 0]), Sleeping, Start];
    NextStep(c, 0, e2, y, 0);
    var e3 := e2 + [y];
    assert {"y"} - {"y"} == {} && Run(c, 0, e3).phases == [Loading({}, map["x" := 0, "y" := 0]), Sleeping, Start];
    NextStep(c, 0, e3, y, 0);
    events := e3 + [y];
    assert Run(c, 0, events).phases == [Unpinned(map["x" := 0, "y" := 0]), Sleeping, Start];
    assert {} + {"x"} + {"y"} == {"x", "y"};
  }

  /** Closing one extra library unregisters the plugins of the other, which stays open and so is not registered
      again: a later call for its plugin loads everything and still does not find it. */
  lemma ExtraLibraryLosesItsPlugins() returns (events: seq<Event>)
    ensures ConfigOk(TWO_EXTRAS)
    ensures var w := Run(TWO_EXTRAS, 0, events);
            && w.phases[2].Loading? && w.phases[2].todo == {}
            && "y" in w.open && "y" !in w.registered && "x" in w.registered
  {
    var loaded := LoadExtras();
    NextTick(TWO_EXTRAS, 0, loaded, TIMER_TIMEOUT);
    var closed := UnloadAlone(TWO_EXTRAS, 0, loaded + [Tick(TIMER_TIMEOUT)], 1);
    assert {"x", "y"} - {"x"} == {"y"};
    events := LoadBoth(closed);
  }

  lemma LoadBoth(closed: seq<Event>) returns (events: seq<Event>)
    requires var w := Run(TWO_EXTRAS, 0, closed);
             && w.open == {"y"} && w.registered == {} && w.phases[2].Start?
             && Held(TWO_EXTRAS.roles[0], w.phases[0]) == {} && Held(TWO_EXTRAS.roles[1], w.phases[1]) == {}
    ensures var w := Run(TWO_EXTRAS, 0, events);
            && w.phases[2].Loading? && w.phases[2].todo == {}
            && "y" in w.open && "y" !in w.registered && "x" in w.registered
  {
    var c := TWO_EXTRAS;
    var x, y := Act(2, "x", false, false), Act(2, "y", false, false);
    var w := Run(c, 0, closed);
    var w1 := CallerStep(c, w, c.roles[2], x);
    StepTo(c, 0, closed, x, w, w1);
    var w2 := CallerStep(c, w1, c.roles[2], x);
    assert w2.open == {"x", "y"} && w2.registered == {"x"} && w2.phases[2].Loading? && w2.phases[2].todo == {"y"};
    StepTo(c, 0, closed + [x], x, w1, w2);
    events := LoadAgain(closed + [x] + [x], w2, y);
  }

  /** A library that is open already is only stamped and notified. */
  lemma LoadAgain(before: seq<Event>, w: World, y: Event) returns (events: seq<Event>)
    requires Run(TWO_EXTRAS, 0, before) == w && y == Act(2, "y", false, false)
    requires w.open == {"x", "y"} && w.registered == {"x"} && w.phases[2].Loading? && w.phases[2].todo == {"y"}
    requires Held(TWO_EXTRAS.roles[0], w.phases[0]) == {} && Held(TWO_EXTRAS.roles[1], w.phases[1]) == {}
    ensures var w' := Run(TWO_EXTRAS, 0, events);
            && w'.phases[2].Loading? && w'.phases[2].todo == {} && w'.open == {"x", "y"} && w'.registered == {"x"}
  {
    var c := TWO_EXTRAS;
    var w1 := CallerStep(c, w, c.roles[2], y);
    var w2 := CallerStep(c, w1, c.roles[2], y);
    var w3 := CallerStep(c, w2, c.roles[2], y);
    StepTo(c, 0, before, y, w, w1);
    StepTo(c, 0, before + [y], y, w1, w2);
    StepTo(c, 0, before + [y] + [y], y, w2, w3);
    events := before + [y] + [y] + [y];
  }
}
