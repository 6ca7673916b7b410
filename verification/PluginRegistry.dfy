/** The plugin registry: the maps by code and by name, the links from base plugins to their extensions, and the
    execute strategies. Plugins are objects with an identity; `plugins` holds their current fields. */
module PluginRegistry {
  import opened PolicyModel

  type Id = int

  datatype Strategy = SINGLE | ENHANCE | REPLACE

  /** `permitted` is false for a plugin without any permission configuration, which is not registered. */
  datatype Meta = Meta(code: int, name: string, permitted: bool)

  datatype PluginObject = PluginObject(meta: Meta, extension: Option<Id>, strategy: Strategy, basic: int,
                                       isExtension: bool)

  datatype Registry = Registry(codes: map<int, Id>, names: map<string, Id>, extensions: map<int, int>,
                               strategies: map<int, Strategy>, plugins: map<Id, PluginObject>)

  const EMPTY_REGISTRY := Registry(map[], map[], map[], map[], map[])

  datatype Added = Added(registry: Registry, ok: bool)

  function PluginByCode(r: Registry, code: int): Option<Id> {
    if code in r.codes then Some(r.codes[code]) else None
  }

  function InsertKey<K, V>(m: map<K, V>, k: K, v: V): map<K, V> {
    if k in m then m else m[k := v]
  }

  function AddPluginSpec(r: Registry, id: Id, meta: Meta): Added {
    if !meta.permitted then Added(r, false)
    else
      var codes := InsertKey(r.codes, meta.code, id);
      var linked := r.(codes := codes, names := InsertKey(r.names, meta.name, id));
      var extension := if meta.code in r.extensions then PluginByCode(linked, r.extensions[meta.code]) else None;
      var strategy := if meta.code in r.strategies then r.strategies[meta.code] else SINGLE;
      Added(linked.(plugins := r.plugins[id := PluginObject(meta, extension, strategy, 0, false)]), true)
  }

  function LinkBase(r: Registry, base: int, id: Id, strategy: Strategy): Registry {
    match PluginByCode(r, base)
    case Some(b) => if b in r.plugins
                    then r.(plugins :=
                      r.plugins[b := r.plugins[b].(extension := Some(id), strategy := strategy)]) else r
    case None => r
  }

  function AddExtensionSpec(r: Registry, id: Id, meta: Meta, base: int, strategy: Strategy): Added {
    var added := AddPluginSpec(r, id, meta);
    if !added.ok then added
    else
      var linked := LinkBase(added.registry, base, id, strategy);
      Added(linked.(plugins := linked.plugins[id := linked.plugins[id].(basic := base, isExtension := true)],
                    extensions := InsertKey(linked.extensions, base, meta.code),
                    strategies := InsertKey(linked.strategies, base, strategy)), true)
  }

  function ResetExtension(r: Registry, id: Id): Registry {
    if id in r.plugins then r.(plugins := r.plugins[id := r.plugins[id].(extension := None)]) else r
  }

  function ResetBase(r: Registry, base: int): Registry {
    match PluginByCode(r, base)
    case Some(b) => ResetExtension(r, b)
    case None => r
  }

  function RemovePluginSpec(r: Registry, id: Id): Registry {
    if id !in r.plugins then r
    else
      var meta := r.plugins[id].meta;
      var cut := ResetExtension(r.(extensions := r.extensions - {meta.code}), id);
      if !meta.permitted then cut
      else ResetBase(cut.(codes := cut.codes - {meta.code}, names := cut.names - {meta.name}), cut.plugins[id].basic)
  }

  /** The registry of the plugin manager, with its maps updated in place. */
  class PluginTable {
    var pluginsCode: map<int, Id>
    var pluginsName: map<string, Id>
    var extensionPluginMap: map<int, int>
    var executeStrategyMap: map<int, Strategy>
    var plugins: map<Id, PluginObject>

    ghost function State(): Registry
      reads this
    {
      Registry(pluginsCode, pluginsName, extensionPluginMap, executeStrategyMap, plugins)
    }

    constructor ()
      ensures State() == EMPTY_REGISTRY
    {
      pluginsCode, pluginsName, extensionPluginMap, executeStrategyMap, plugins := map[], map[], map[], map[], map[];
    }

    method AddPlugin(id: Id, meta: Meta) returns (ok: bool)
      modifies this
      ensures Added(State(), ok) == AddPluginSpec(old(State()), id, meta)
    {
      if !meta.permitted { return false; }
      if meta.code !in pluginsCode { pluginsCode := pluginsCode[meta.code := id]; }
      if meta.name !in pluginsName { pluginsName := pluginsName[meta.name := id]; }
      var plugin := PluginObject(meta, None, SINGLE, 0, false);
      if meta.code in extensionPluginMap && extensionPluginMap[meta.code] in pluginsCode {
        plugin := plugin.(extension := Some(pluginsCode[extensionPluginMap[meta.code]]));
      }
      if meta.code in executeStrategyMap {
        plugin := plugin.(strategy := executeStrategyMap[meta.code]);
      }
      plugins := plugins[id := plugin];
      return true;
    }

    method AddExtensionPlugin(id: Id, meta: Meta, basicPluginCode: int, strategy: Strategy) returns (ok: bool)
      modifies this
      ensures Added(State(), ok) == AddExtensionSpec(old(State()), id, meta, basicPluginCode, strategy)
    {
      ok := AddPlugin(id, meta);
      if !ok { return; }
      if basicPluginCode in pluginsCode && pluginsCode[basicPluginCode] in plugins {
        var b := pluginsCode[basicPluginCode];
        plugins := plugins[b := plugins[b].(extension := Some(id), strategy := strategy)];
      }
      plugins := plugins[id := plugins[id].(basic := basicPluginCode, isExtension := true)];
      if basicPluginCode !in extensionPluginMap {
        extensionPluginMap := extensionPluginMap[basicPluginCode := meta.code];
      }
      if basicPluginCode !in executeStrategyMap {
        executeStrategyMap := executeStrategyMap[basicPluginCode := strategy];
      }
    }

    method RemovePlugin(id: Id)
      modifies this
      ensures State() == RemovePluginSpec(old(State()), id)
    {
      if id !in plugins { return; }
      var meta := plugins[id].meta;
      extensionPluginMap := extensionPluginMap - {meta.code};
      plugins := plugins[id := plugins[id].(extension := None)];
      if !meta.permitted { return; }
      pluginsCode := pluginsCode - {meta.code};
      pluginsName := pluginsName - {meta.name};
      var base := plugins[id].basic;
      if base in pluginsCode && pluginsCode[base] in plugins {
        var b := pluginsCode[base];
        plugins := plugins[b := plugins[b].(extension := None)];
      }
    }

    /** `UnloadPlugin` over the codes of a library: a library that is not built in clears both extension maps first. */
    method UnloadCodes(codes: seq<int>, extra: bool)
      modifies this
      ensures State() == UnloadSpec(old(State()), codes, extra)
    {
      if extra { extensionPluginMap, executeStrategyMap := map[], map[]; }
      ghost var before := State();
      var i := 0;
      while i < |codes|
        invariant 0 <= i <= |codes|
        invariant State() == RemoveCodes(before, codes[..i])
      {
        assert codes[..i + 1][..i] == codes[..i];
        if codes[i] in pluginsCode { RemovePlugin(pluginsCode[codes[i]]); }
        i := i + 1;
      }
      assert codes[..i] == codes;
    }
  }

  function RemoveCodes(r: Registry, codes: seq<int>): Registry {
    if codes == [] then r
    else
      var before := RemoveCodes(r, codes[..|codes| - 1]);
      match PluginByCode(before, codes[|codes| - 1])
      case Some(id) => RemovePluginSpec(before, id)
      case None => before
  }

  function UnloadSpec(r: Registry, codes: seq<int>, extra: bool): Registry {
    RemoveCodes(if extra then r.(extensions := map[], strategies := map[]) else r, codes)
  }

  // ----- Registration does not depend on the order -----

  datatype AddOp =
    | AddBase(id: Id, meta: Meta)
    | AddExtension(id: Id, meta: Meta, base: int, mode: Strategy)

  function Add(r: Registry, op: AddOp): Registry {
    match op
    case AddBase(id, meta) => AddPluginSpec(r, id, meta).registry
    case AddExtension(id, meta, base, mode) => AddExtensionSpec(r, id, meta, base, mode).registry
  }

  function AddAll(r: Registry, ops: seq<AddOp>): Registry {
    if ops == [] then r else Add(AddAll(r, ops[..|ops| - 1]), ops[|ops| - 1])
  }

  /** The registration links a base. */
  predicate Extends(op: AddOp) {
    op.AddExtension? && op.meta.permitted
  }

  /** Different objects, codes and names, and not two extensions of one base. */
  predicate Apart(a: AddOp, b: AddOp) {
    Different(a, b) && (Extends(a) && Extends(b) ==> a.base != b.base)
  }

  predicate Different(a: AddOp, b: AddOp) {
    a.id != b.id && a.meta.code != b.meta.code && a.meta.name != b.meta.name
  }

  ghost predicate Distinct(ops: seq<AddOp>) {
    forall i, j :: 0 <= i < j < |ops| ==> Apart(ops[i], ops[j])
  }

  /** Nothing of the operation is in the registry yet. */
  ghost predicate NewTo(r: Registry, op: AddOp) {
    && op.meta.code !in r.codes && op.meta.name !in r.names && op.id !in r.plugins
    && (forall c :: c in r.codes ==> r.codes[c] != op.id)
    && (forall c :: c in r.extensions ==> r.extensions[c] != op.meta.code)
    && (Extends(op) ==> op.base !in r.extensions && op.base !in r.strategies)
  }

  /** No object is registered under two codes. */
  ghost predicate OneCodeEach(r: Registry) {
    forall c, d :: c in r.codes && d in r.codes && c != d ==> r.codes[c] != r.codes[d]
  }

  /** The four maps after an operation. */
  ghost predicate MapsAfter(r: Registry, op: AddOp, r': Registry) {
    && r'.codes == (if op.meta.permitted then r.codes[op.meta.code := op.id] else r.codes)
    && r'.names == (if op.meta.permitted then r.names[op.meta.name := op.id] else r.names)
    && r'.extensions ==
       (if op.meta.permitted && op.AddExtension? then r.extensions[op.base := op.meta.code] else r.extensions)
    && r'.strategies ==
       (if op.meta.permitted && op.AddExtension? then r.strategies[op.base := op.mode] else r.strategies)
  }

  lemma AddMaps(r: Registry, op: AddOp)
    requires NewTo(r, op)
    ensures MapsAfter(r, op, Add(r, op))
  {
  }

  lemma AddKeys(r: Registry, op: AddOp)
    requires NewTo(r, op)
    ensures Add(r, op).plugins.Keys == if op.meta.permitted then r.plugins.Keys + {op.id} else r.plugins.Keys
  {
  }

  lemma AddKeepsNew(r: Registry, a: AddOp, b: AddOp)
    requires NewTo(r, a) && NewTo(r, b) && Apart(a, b)
    ensures NewTo(Add(r, a), b)
  {
    AddMaps(r, a);
    AddKeys(r, a);
    NewAfter(r, a, b, Add(r, a));
  }

  lemma NewAfter(r: Registry, a: AddOp, b: AddOp, r': Registry)
    requires NewTo(r, b) && Apart(a, b) && MapsAfter(r, a, r')
    requires r'.plugins.Keys == if a.meta.permitted then r.plugins.Keys + {a.id} else r.plugins.Keys
    ensures NewTo(r', b)
  {
    assert b.id !in r'.plugins.Keys;
  }

  lemma PutsCommute<K, V>(m: map<K, V>, k: K, v: V, l: K, w: V)
    requires k != l
    ensures m[k := v][l := w] == m[l := w][k := v]
  {
  }

  lemma CommuteMaps(r: Registry, a: AddOp, b: AddOp, ra: Registry, rb: Registry, rab: Registry, rba: Registry)
    requires Apart(a, b) && MapsAfter(r, a, ra) && MapsAfter(r, b, rb) && MapsAfter(ra, b, rab) && MapsAfter(rb, a, rba)
    ensures rab.codes == rba.codes && rab.names == rba.names
    ensures rab.extensions == rba.extensions && rab.strategies == rba.strategies
  {
    if a.meta.permitted && b.meta.permitted {
      PutsCommute(r.codes, a.meta.code, a.id, b.meta.code, b.id);
      PutsCommute(r.names, a.meta.name, a.id, b.meta.name, b.id);
      if a.AddExtension? && b.AddExtension? {
        PutsCommute(r.extensions, a.base, a.meta.code, b.base, b.meta.code);
        PutsCommute(r.strategies, a.base, a.mode, b.base, b.mode);
      }
    }
  }

  /** One object after an operation: a new one, the base of a new extension, or as before. */
  function ObjectAfter(r: Registry, op: AddOp, id: Id): Option<PluginObject> {
    if !op.meta.permitted then FindPlugin(r, id)
    else if id == op.id then
      var self := op.AddExtension? && op.base == op.meta.code;
      var linked := if op.meta.code in r.extensions then PluginByCode(r, r.extensions[op.meta.code]) else None;
      var strategy := if op.meta.code in r.strategies then r.strategies[op.meta.code] else SINGLE;
      Some(PluginObject(op.meta, if self then Some(id) else linked, if self then op.mode else strategy,
                        if op.AddExtension? then op.base else 0, op.AddExtension?))
    else if op.AddExtension? && PluginByCode(r, op.base) == Some(id) && id in r.plugins then
      Some(r.plugins[id].(extension := Some(op.id), strategy := op.mode))
    else FindPlugin(r, id)
  }

  function FindPlugin(r: Registry, id: Id): Option<PluginObject> {
    if id in r.plugins then Some(r.plugins[id]) else None
  }

  lemma AddPluginObject(r: Registry, id: Id, meta: Meta, other: Id)
    requires meta.permitted && meta.code !in r.codes && forall c :: c in r.extensions ==> r.extensions[c] != meta.code
    ensures var r' := AddPluginSpec(r, id, meta).registry;
            && FindPlugin(r', other) ==
               (if other != id then FindPlugin(r, other)
                else Some(PluginObject(meta, if meta.code in r.extensions then PluginByCode(r, r.extensions[meta.code])
                                             else None,
                                       if meta.code in r.strategies then r.strategies[meta.code]
                                       else SINGLE, 0, false)))
            && PluginByCode(r', meta.code) == Some(id)
            && (forall c :: c != meta.code ==> PluginByCode(r', c) == PluginByCode(r, c))
  {
  }

  lemma LinkBaseObject(r: Registry, base: int, id: Id, mode: Strategy, other: Id)
    ensures FindPlugin(LinkBase(r, base, id, mode), other) ==
            if PluginByCode(r, base) == Some(other) && other in r.plugins
            then Some(r.plugins[other].(extension := Some(id), strategy := mode)) else FindPlugin(r, other)
  {
  }

  lemma AddObject(r: Registry, op: AddOp, id: Id)
    requires NewTo(r, op)
    ensures FindPlugin(Add(r, op), id) == ObjectAfter(r, op, id)
  {
    if op.meta.permitted {
      var r1 := AddPluginSpec(r, op.id, op.meta).registry;
      AddPluginObject(r, op.id, op.meta, id);
      AddPluginObject(r, op.id, op.meta, op.id);
      if op.AddExtension? {
        LinkBaseObject(r1, op.base, op.id, op.mode, id);
        LinkBaseObject(r1, op.base, op.id, op.mode, op.id);
        MarkedObject(r, op, id);
      }
    }
  }

  lemma MarkedObject(r: Registry, op: AddOp, id: Id)
    requires op.AddExtension? && op.meta.permitted
    ensures var r2 := LinkBase(AddPluginSpec(r, op.id, op.meta).registry, op.base, op.id, op.mode);
            && op.id in r2.plugins
            && FindPlugin(Add(r, op), id) ==
               if id == op.id then Some(r2.plugins[id].(basic := op.base, isExtension := true)) else FindPlugin(r2, id)
  {
  }

  lemma CommuteOld(r: Registry, a: AddOp, b: AddOp, ra: Registry, rb: Registry, id: Id)
    requires NewTo(r, a) && NewTo(r, b) && Apart(a, b) && MapsAfter(r, a, ra) && MapsAfter(r, b, rb) && OneCodeEach(r)
    requires FindPlugin(ra, id) == ObjectAfter(r, a, id) && FindPlugin(rb, id) == ObjectAfter(r, b, id)
    requires id != a.id && id != b.id
    ensures ObjectAfter(ra, b, id) == ObjectAfter(rb, a, id)
  {
    assert a.AddExtension? ==> (PluginByCode(rb, a.base) == Some(id) <==> PluginByCode(r, a.base) == Some(id));
    assert b.AddExtension? ==> (PluginByCode(ra, b.base) == Some(id) <==> PluginByCode(r, b.base) == Some(id));
  }

  lemma CommuteNew(r: Registry, a: AddOp, b: AddOp, ra: Registry, rb: Registry)
    requires NewTo(r, a) && NewTo(r, b) && Apart(a, b) && MapsAfter(r, a, ra) && MapsAfter(r, b, rb)
    requires FindPlugin(ra, a.id) == ObjectAfter(r, a, a.id) && FindPlugin(rb, a.id) == ObjectAfter(r, b, a.id)
    ensures ObjectAfter(ra, b, a.id) == ObjectAfter(rb, a, a.id)
  {
    if !a.meta.permitted {
      assert FindPlugin(ra, a.id) == FindPlugin(r, a.id) == None;
      assert b.AddExtension? ==> PluginByCode(ra, b.base) != Some(a.id);
    } else if b.meta.permitted {
      CommuteNewBoth(r, a, b, ra, rb);
    }
  }

  lemma CommuteNewBoth(r: Registry, a: AddOp, b: AddOp, ra: Registry, rb: Registry)
    requires NewTo(r, a) && NewTo(r, b) && Apart(a, b) && MapsAfter(r, a, ra) && MapsAfter(r, b, rb)
    requires FindPlugin(ra, a.id) == ObjectAfter(r, a, a.id) && a.meta.permitted && b.meta.permitted
    ensures ObjectAfter(ra, b, a.id) == ObjectAfter(rb, a, a.id)
  {
    if b.AddExtension? && b.base == a.meta.code {
      assert PluginByCode(ra, b.base) == Some(a.id);
    } else {
      assert b.AddExtension? ==> PluginByCode(ra, b.base) != Some(a.id);
      assert a.meta.code in r.extensions ==>
        PluginByCode(rb, r.extensions[a.meta.code]) == PluginByCode(r, r.extensions[a.meta.code]);
    }
  }

  /** Two registrations that are apart can be exchanged. */
  lemma Commute(r: Registry, a: AddOp, b: AddOp)
    requires NewTo(r, a) && NewTo(r, b) && Apart(a, b) && OneCodeEach(r)
    ensures Add(Add(r, a), b) == Add(Add(r, b), a)
  {
    var ra, rb := Add(r, a), Add(r, b);
    AddKeepsNew(r, a, b);
    AddKeepsNew(r, b, a);
    AddMaps(r, a);
    AddMaps(r, b);
    AddMaps(ra, b);
    AddMaps(rb, a);
    CommuteMaps(r, a, b, ra, rb, Add(ra, b), Add(rb, a));
    forall id ensures FindPlugin(Add(ra, b), id) == FindPlugin(Add(rb, a), id) {
      AddObject(r, a, id);
      AddObject(r, b, id);
      AddObject(ra, b, id);
      AddObject(rb, a, id);
      if id == a.id { CommuteNew(r, a, b, ra, rb); }
      else if id == b.id { CommuteNew(r, b, a, rb, ra); }
      else { CommuteOld(r, a, b, ra, rb, id); }
    }
    SamePlugins(Add(ra, b), Add(rb, a));
  }

  lemma SamePlugins(r: Registry, r': Registry)
    requires forall id :: FindPlugin(r, id) == FindPlugin(r', id)
    ensures r.plugins == r'.plugins
  {
    forall id ensures (id in r.plugins <==> id in r'.plugins) && (id in r.plugins ==> r.plugins[id] == r'.plugins[id]) {
      assert FindPlugin(r, id) == FindPlugin(r', id);
    }
  }

  ghost predicate AllNew(r: Registry, ops: seq<AddOp>) {
    OneCodeEach(r) && forall i :: 0 <= i < |ops| ==> NewTo(r, ops[i])
  }

  lemma {:induction false} RunKeepsNew(r: Registry, ops: seq<AddOp>, op: AddOp)
    requires AllNew(r, ops) && Distinct(ops) && NewTo(r, op) && forall i :: 0 <= i < |ops| ==> Apart(ops[i], op)
    ensures NewTo(AddAll(r, ops), op) && OneCodeEach(AddAll(r, ops))
  {
    if ops != [] {
      var init, last := ops[..|ops| - 1], ops[|ops| - 1];
      RunKeepsNew(r, init, op);
      RunKeepsNew(r, init, last);
      AddKeepsNew(AddAll(r, init), last, op);
      AddMaps(AddAll(r, init), last);
    }
  }

  lemma AddAllNext(r: Registry, ops: seq<AddOp>, op: AddOp)
    ensures AddAll(r, ops + [op]) == Add(AddAll(r, ops), op)
  {
    assert (ops + [op])[..|ops|] == ops;
  }

  lemma BubbleNext(r: Registry, x: AddOp, init: seq<AddOp>, y: AddOp)
    requires AddAll(r, [x] + init) == AddAll(r, init + [x])
    requires Add(Add(AddAll(r, init), x), y) == Add(Add(AddAll(r, init), y), x)
    ensures AddAll(r, [x] + init + [y]) == AddAll(r, init + [y] + [x])
  {
    AddAllNext(r, [x] + init, y);
    AddAllNext(r, init, x);
    AddAllNext(r, init, y);
    AddAllNext(r, init + [y], x);
  }

  lemma CommuteAtEnd(r: Registry, x: AddOp, init: seq<AddOp>, y: AddOp)
    requires AllNew(r, init) && Distinct(init) && NewTo(r, x) && NewTo(r, y) && Apart(y, x)
    requires forall i :: 0 <= i < |init| ==> Apart(init[i], x) && Apart(init[i], y)
    ensures Add(Add(AddAll(r, init), x), y) == Add(Add(AddAll(r, init), y), x)
  {
    RunKeepsNew(r, init, x);
    RunKeepsNew(r, init, y);
    Commute(AddAll(r, init), x, y);
  }

  lemma Ends<T>(x: T, rest: seq<T>)
    requires rest != []
    ensures var init, y := rest[..|rest| - 1], rest[|rest| - 1];
            rest == init + [y] && [x] + rest == [x] + init + [y]
  {
    assert rest == rest[..|rest| - 1] + [rest[|rest| - 1]];
  }

  lemma {:induction false} Bubble(r: Registry, x: AddOp, rest: seq<AddOp>)
    requires AllNew(r, rest) && Distinct(rest) && NewTo(r, x) && forall i :: 0 <= i < |rest| ==> Apart(rest[i], x)
    ensures AddAll(r, [x] + rest) == AddAll(r, rest + [x])
  {
    if rest == [] {
      assert [x] + rest == rest + [x];
    } else {
      var init, y := rest[..|rest| - 1], rest[|rest| - 1];
      Bubble(r, x, init);
      CommuteAtEnd(r, x, init, y);
      BubbleNext(r, x, init, y);
      Ends(x, rest);
    }
  }

  lemma {:induction false} AddAllAppend(r: Registry, a: seq<AddOp>, b: seq<AddOp>)
    ensures AddAll(r, a + b) == AddAll(AddAll(r, a), b)
  {
    if b == [] {
      assert a + b == a;
    } else {
      AddAllAppend(r, a, b[..|b| - 1]);
      assert (a + b)[..|a + b| - 1] == a + b[..|b| - 1];
    }
  }

  ghost predicate AllApart(a: seq<AddOp>, b: seq<AddOp>) {
    forall i, j :: 0 <= i < |a| && 0 <= j < |b| ==> Apart(a[i], b[j])
  }

  /** Moving one registration to the end changes nothing. */
  lemma MoveToEnd(r: Registry, a: seq<AddOp>, x: AddOp, b: seq<AddOp>)
    requires AllNew(r, a) && AllNew(r, b) && NewTo(r, x) && Distinct(a) && Distinct(b)
    requires AllApart(a, b) && AllApart(a, [x]) && AllApart(b, [x])
    ensures AddAll(r, a + [x] + b) == AddAll(r, a + b + [x])
  {
    var s := AddAll(r, a);
    assert forall i :: 0 <= i < |a| ==> Apart(a[i], [x][0]);
    RunKeepsNew(r, a, x);
    forall i | 0 <= i < |b| ensures NewTo(s, b[i]) { RunKeepsNew(r, a, b[i]); }
    forall i | 0 <= i < |b| ensures Apart(b[i], x) { assert Apart(b[i], [x][0]); }
    Bubble(s, x, b);
    AddAllAppend(r, a, [x] + b);
    AddAllAppend(r, a, b + [x]);
    assert a + ([x] + b) == a + [x] + b && a + (b + [x]) == a + b + [x];
  }

  /** `ops` with the registration at `k` taken out. */
  lemma TakeOut(r: Registry, ops: seq<AddOp>, k: nat)
    requires k < |ops| && AllNew(r, ops) && Distinct(ops)
    ensures var a, b := ops[..k], ops[k + 1..];
            && ops == a + [ops[k]] + b && AllNew(r, a + b) && Distinct(a + b)
            && AllNew(r, a) && AllNew(r, b) && Distinct(a) && Distinct(b)
            && AllApart(a, b) && AllApart(a, [ops[k]]) && AllApart(b, [ops[k]])
            && multiset(ops) == multiset(a + b) + multiset{ops[k]}
  {
    var a, b := ops[..k], ops[k + 1..];
    assert ops == a + [ops[k]] + b;
    forall i, j | 0 <= i < j < |a + b| ensures Apart((a + b)[i], (a + b)[j]) {
      assert (a + b)[i] == ops[if i < k then i else i + 1] && (a + b)[j] == ops[if j < k then j else j + 1];
    }
  }

  lemma FindLast(ops: seq<AddOp>, ops': seq<AddOp>) returns (k: nat)
    requires |ops'| > 0 && multiset(ops) == multiset(ops')
    ensures k < |ops| && ops[k] == ops'[|ops'| - 1]
    ensures multiset(ops[..k] + ops[k + 1..]) == multiset(ops'[..|ops'| - 1])
  {
    var init, x := ops'[..|ops'| - 1], ops'[|ops'| - 1];
    assert ops' == init + [x];
    assert x in multiset(ops);
    k :| 0 <= k < |ops| && ops[k] == x;
    assert ops == ops[..k] + [x] + ops[k + 1..];
    var rest := ops[..k] + ops[k + 1..];
    assert multiset(ops) == multiset(rest) + multiset{x};
    assert multiset(ops') == multiset(init) + multiset{x};
    forall o ensures multiset(rest)[o] == multiset(init)[o] {
      assert multiset(ops)[o] == multiset(ops')[o];
    }
  }

  /** Every order of the same registrations gives the same registry: maps, links and strategies. */
  lemma {:induction false} OrderDoesNotMatter(r: Registry, ops: seq<AddOp>, ops': seq<AddOp>)
    requires AllNew(r, ops) && Distinct(ops) && multiset(ops) == multiset(ops')
    ensures AddAll(r, ops) == AddAll(r, ops')
    decreases |ops'|
  {
    if ops' == [] {
      assert |multiset(ops)| == 0;
    } else {
      var k := FindLast(ops, ops');
      TakeOut(r, ops, k);
      MoveToEnd(r, ops[..k], ops[k], ops[k + 1..]);
      OrderDoesNotMatter(r, ops[..k] + ops[k + 1..], ops'[..|ops'| - 1]);
      AddAllAppend(r, ops[..k] + ops[k + 1..], [ops[k]]);
      assert [ops[k]][..0] == [];
    }
  }

  ghost predicate AllDifferent(ops: seq<AddOp>) {
    forall i, j :: 0 <= i < j < |ops| ==> Different(ops[i], ops[j])
  }

  /** Every order of these registrations gives the same registry. */
  ghost predicate OrderHidden(r: Registry, ops: seq<AddOp>) {
    forall ops' :: multiset(ops') == multiset(ops) ==> AddAll(r, ops') == AddAll(r, ops)
  }

  /** An extension map entry is not overwritten. */
  lemma {:induction false} ExtensionStays(r: Registry, ops: seq<AddOp>, base: int)
    requires base in r.extensions
    ensures base in AddAll(r, ops).extensions && AddAll(r, ops).extensions[base] == r.extensions[base]
  {
    if ops != [] { ExtensionStays(r, ops[..|ops| - 1], base); }
  }

  /** The first of two extensions of one base is the one the base will find. */
  lemma FirstIsFound(r: Registry, e: AddOp, f: AddOp, rest: seq<AddOp>)
    requires Extends(e) && e.base !in r.extensions
    ensures var r' := AddAll(r, [e, f] + rest);
            e.base in r'.extensions && r'.extensions[e.base] == e.meta.code
  {
    var first := Add(r, e);
    assert e.base in first.extensions && first.extensions[e.base] == e.meta.code;
    ExtensionStays(first, [f] + rest, e.base);
    AddAllAppend(r, [e], [f] + rest);
    assert [e] + ([f] + rest) == [e, f] + rest && [e][..0] == [];
    assert AddAll(r, [e]) == first;
  }

  lemma TwoToFront(ops: seq<AddOp>, i: nat, j: nat) returns (rest: seq<AddOp>)
    requires i < j < |ops|
    ensures multiset([ops[i], ops[j]] + rest) == multiset([ops[j], ops[i]] + rest) == multiset(ops)
  {
    rest := ops[..i] + ops[i + 1..j] + ops[j + 1..];
    assert ops == ops[..i] + [ops[i]] + ops[i + 1..j] + [ops[j]] + ops[j + 1..];
  }

  lemma TwoExtensionsShow(r: Registry, ops: seq<AddOp>, i: nat, j: nat)
    requires AllNew(r, ops) && i < j < |ops| && Different(ops[i], ops[j])
    requires Extends(ops[i]) && Extends(ops[j]) && ops[i].base == ops[j].base
    ensures !OrderHidden(r, ops)
  {
    var rest := TwoToFront(ops, i, j);
    FirstIsFound(r, ops[i], ops[j], rest);
    FirstIsFound(r, ops[j], ops[i], rest);
    assert AddAll(r, [ops[i], ops[j]] + rest) != AddAll(r, [ops[j], ops[i]] + rest);
  }

  /** The order of registrations of different plugins does not show if and only if no two of them extend one base. */
  lemma OrderHiddenIff(r: Registry, ops: seq<AddOp>)
    requires AllNew(r, ops) && AllDifferent(ops)
    ensures OrderHidden(r, ops) <==> Distinct(ops)
  {
    if Distinct(ops) {
      forall ops' | multiset(ops') == multiset(ops) ensures AddAll(r, ops') == AddAll(r, ops) {
        OrderDoesNotMatter(r, ops, ops');
      }
    } else {
      var i, j :| 0 <= i < j < |ops| && !Apart(ops[i], ops[j]);
      TwoExtensionsShow(r, ops, i, j);
    }
  }

  function LinkOf(r: Registry, id: Id): Option<Id> {
    if id in r.plugins then r.plugins[id].extension else None
  }

  /** With two extensions of one base, in any registry that does not know them: the last registered keeps the link when
      the base came first, the first registered gets it when the base comes last. */
  lemma TwoExtensionsShowOrder(r: Registry, b: AddOp, e: AddOp, f: AddOp)
    requires NewTo(r, b) && NewTo(r, e) && NewTo(r, f) && AllDifferent([b, e, f])
    requires b.AddBase? && b.meta.permitted && Extends(e) && Extends(f) && e.base == f.base == b.meta.code
    ensures LinkOf(AddAll(r, [b, e, f]), b.id) == Some(f.id)
    ensures LinkOf(AddAll(r, [e, f, b]), b.id) == Some(e.id)
  {
    var ops := [b, e, f];
    assert Different(ops[0], ops[1]) && Different(ops[0], ops[2]) && Different(ops[1], ops[2]);
    BaseThenExtensions(r, b, e, f);
    ExtensionsThenBase(r, b, e, f);
    AddAllThree(r, b, e, f);
    AddAllThree(r, e, f, b);
  }

  lemma AddAllThree(r: Registry, a: AddOp, b: AddOp, c: AddOp)
    ensures AddAll(r, [a, b, c]) == Add(Add(Add(r, a), b), c)
  {
    var two, one := [a, b, c][..2], [a, b][..1];
    assert two == [a, b] && one == [a] && one[..0] == [];
    assert AddAll(r, one) == Add(r, a);
  }

  lemma BaseThenExtensions(r: Registry, b: AddOp, e: AddOp, f: AddOp)
    requires NewTo(r, b) && b.AddBase? && b.meta.permitted && Extends(e) && Extends(f)
    requires b.id != e.id && b.id != f.id && b.meta.code != e.meta.code && e.base == f.base == b.meta.code
    ensures LinkOf(Add(Add(Add(r, b), e), f), b.id) == Some(f.id)
  {
    var q := Add(r, b);
    assert PluginByCode(q, b.meta.code) == Some(b.id) && b.id in q.plugins;
    LinkedOnAdd(q, e, b);
    LinkedOnAdd(Add(q, e), f, b);
  }

  /** An extension links the base registered before it. */
  lemma LinkedOnAdd(r: Registry, e: AddOp, b: AddOp)
    requires e.AddExtension? && e.meta.permitted && e.base == b.meta.code && e.id != b.id
    requires PluginByCode(r, b.meta.code) == Some(b.id) && b.id in r.plugins
    ensures var r' := Add(r, e);
            PluginByCode(r', b.meta.code) == Some(b.id) && b.id in r'.plugins && LinkOf(r', b.id) == Some(e.id)
  {
  }

  lemma ExtensionsThenBase(r: Registry, b: AddOp, e: AddOp, f: AddOp)
    requires NewTo(r, b) && NewTo(r, e) && b.AddBase? && b.meta.permitted && Extends(e) && Extends(f)
    requires e.meta.code != f.meta.code && b.meta.code != e.meta.code && e.base == f.base == b.meta.code
    ensures LinkOf(Add(Add(Add(r, e), f), b), b.id) == Some(e.id)
  {
    var p := Add(r, e);
    assert PluginByCode(p, e.meta.code) == Some(e.id) && p.extensions == r.extensions[b.meta.code := e.meta.code];
    var q := Add(p, f);
    assert PluginByCode(q, e.meta.code) == Some(e.id) && b.meta.code in q.extensions &&
           q.extensions[b.meta.code] == e.meta.code;
  }

  // ----- The two maps hold the same plugins -----

  /** Each object's fixed metadata; a code has one policy name and no two codes share one. */
  datatype Catalogue = Catalogue(metaOf: Id -> Meta, nameOf: int -> string)

  ghost predicate Naming(cat: Catalogue) {
    && (forall c, d :: cat.nameOf(c) == cat.nameOf(d) ==> c == d)
    && (forall id :: cat.metaOf(id).name == cat.nameOf(cat.metaOf(id).code))
  }

  function PluginByName(r: Registry, name: string): Option<Id> {
    if name in r.names then Some(r.names[name]) else None
  }

  /** What is registered under a code is registered under its name, and nothing else has a name. */
  ghost predicate SameInBoth(r: Registry, cat: Catalogue) {
    && (forall c :: PluginByCode(r, c) == PluginByName(r, cat.nameOf(c)))
    && (forall n :: n in r.names ==> exists c :: c in r.codes && n == cat.nameOf(c))
  }

  ghost predicate Labelled(r: Registry, cat: Catalogue) {
    && (forall c :: c in r.codes ==> r.codes[c] in r.plugins && cat.metaOf(r.codes[c]).code == c)
    && (forall id :: id in r.plugins ==> r.plugins[id].meta == cat.metaOf(id) && r.plugins[id].meta.permitted)
  }

  datatype TableOp = Register(add: AddOp) | Unload(codes: seq<int>, extra: bool)

  function TableStep(r: Registry, op: TableOp): Registry {
    match op
    case Register(add) => Add(r, add)
    case Unload(codes, extra) => UnloadSpec(r, codes, extra)
  }

  function RunTable(ops: seq<TableOp>): Registry {
    if ops == [] then EMPTY_REGISTRY else TableStep(RunTable(ops[..|ops| - 1]), ops[|ops| - 1])
  }

  lemma AddKeepsLabels(r: Registry, cat: Catalogue, op: AddOp)
    requires Labelled(r, cat) && op.meta == cat.metaOf(op.id)
    ensures Labelled(Add(r, op), cat)
  {
    var r1 := AddPluginSpec(r, op.id, op.meta).registry;
    assert Labelled(r1, cat);
    if op.AddExtension? && op.meta.permitted {
      LinkKeepsLabels(r1, cat, op.base, op.id, op.mode);
      var r2 := LinkBase(r1, op.base, op.id, op.mode);
      FieldsKeepLabels(r2, cat, op.id, r2.plugins[op.id].(basic := op.base, isExtension := true));
    }
  }

  lemma FieldsKeepLabels(r: Registry, cat: Catalogue, id: Id, o: PluginObject)
    requires Labelled(r, cat) && id in r.plugins && o.meta == r.plugins[id].meta
    ensures Labelled(r.(plugins := r.plugins[id := o]), cat)
  {
  }

  lemma LinkKeepsLabels(r: Registry, cat: Catalogue, base: int, id: Id, mode: Strategy)
    requires Labelled(r, cat)
    ensures Labelled(LinkBase(r, base, id, mode), cat)
  {
  }

  lemma AddRegisters(r: Registry, op: AddOp)
    ensures Add(r, op).codes == if op.meta.permitted then InsertKey(r.codes, op.meta.code, op.id) else r.codes
    ensures Add(r, op).names == if op.meta.permitted then InsertKey(r.names, op.meta.name, op.id) else r.names
  {
  }

  lemma AddKeepsBoth(r: Registry, cat: Catalogue, op: AddOp)
    requires Naming(cat) && SameInBoth(r, cat) && op.meta == cat.metaOf(op.id)
    ensures SameInBoth(Add(r, op), cat)
  {
    AddRegisters(r, op);
    if op.meta.permitted { BothAfterInsert(r, cat, op.meta.code, op.id, Add(r, op)); }
  }

  lemma BothAfterInsert(r: Registry, cat: Catalogue, code: int, id: Id, r': Registry)
    requires Naming(cat) && SameInBoth(r, cat)
    requires r'.codes == InsertKey(r.codes, code, id) && r'.names == InsertKey(r.names, cat.nameOf(code), id)
    ensures SameInBoth(r', cat)
  {
    assert PluginByCode(r, code) == PluginByName(r, cat.nameOf(code));
    forall c ensures PluginByCode(r', c) == PluginByName(r', cat.nameOf(c)) {
      assert PluginByCode(r, c) == PluginByName(r, cat.nameOf(c));
    }
    forall n | n in r'.names ensures exists c :: c in r'.codes && n == cat.nameOf(c) {
      if n in r.names { var c :| c in r.codes && n == cat.nameOf(c); assert c in r'.codes; }
      else { assert code in r'.codes; }
    }
  }

  /** A removal by a registered code: one code, its name, and only fields of objects besides. */
  lemma RemoveMaps(r: Registry, cat: Catalogue, c: int)
    requires Labelled(r, cat) && Naming(cat) && c in r.codes
    ensures var r' := RemovePluginSpec(r, r.codes[c]);
            && r'.codes == r.codes - {c} && r'.names == r.names - {cat.nameOf(c)}
            && r'.plugins.Keys == r.plugins.Keys
            && forall id :: id in r'.plugins ==> r'.plugins[id].meta == r.plugins[id].meta
  {
  }

  lemma RemoveKeepsBoth(r: Registry, cat: Catalogue, c: int)
    requires Naming(cat) && SameInBoth(r, cat) && Labelled(r, cat) && c in r.codes
    ensures var r' := RemovePluginSpec(r, r.codes[c]);
            SameInBoth(r', cat) && Labelled(r', cat) && r'.codes == r.codes - {c}
  {
    RemoveMaps(r, cat, c);
    BothAfterRemoval(r, cat, c, RemovePluginSpec(r, r.codes[c]));
  }

  lemma BothAfterRemoval(r: Registry, cat: Catalogue, c: int, r': Registry)
    requires Naming(cat) && SameInBoth(r, cat) && Labelled(r, cat) && c in r.codes
    requires r'.codes == r.codes - {c} && r'.names == r.names - {cat.nameOf(c)} && r'.plugins.Keys == r.plugins.Keys
    requires forall id :: id in r'.plugins ==> r'.plugins[id].meta == r.plugins[id].meta
    ensures SameInBoth(r', cat) && Labelled(r', cat)
  {
    forall d ensures PluginByCode(r', d) == PluginByName(r', cat.nameOf(d)) {
      assert PluginByCode(r, d) == PluginByName(r, cat.nameOf(d));
    }
    forall n | n in r'.names ensures exists d :: d in r'.codes && n == cat.nameOf(d) {
      var d :| d in r.codes && n == cat.nameOf(d);
      assert d in r'.codes;
    }
    forall d | d in r'.codes ensures r'.codes[d] in r'.plugins && cat.metaOf(r'.codes[d]).code == d {
      assert r.codes[d] in r.plugins.Keys;
    }
  }

  lemma {:induction false} UnloadKeepsBoth(r: Registry, cat: Catalogue, codes: seq<int>)
    requires Naming(cat) && SameInBoth(r, cat) && Labelled(r, cat)
    ensures var r' := RemoveCodes(r, codes);
            SameInBoth(r', cat) && Labelled(r', cat) && forall c :: c in r'.codes <==> c in r.codes && c !in codes
  {
    if codes != [] {
      var init, c := codes[..|codes| - 1], codes[|codes| - 1];
      UnloadKeepsBoth(r, cat, init);
      assert forall d :: d in codes <==> d in init || d == c by { assert codes == init + [c]; }
      var before := RemoveCodes(r, init);
      if c in before.codes { RemoveKeepsBoth(before, cat, c); }
    }
  }

  /** Through any registrations and unloads the two maps hold the same plugins. */
  lemma {:induction false} RunKeepsBoth(cat: Catalogue, ops: seq<TableOp>)
    requires Naming(cat)
    requires forall i :: 0 <= i < |ops| && ops[i].Register? ==> ops[i].add.meta == cat.metaOf(ops[i].add.id)
    ensures SameInBoth(RunTable(ops), cat) && Labelled(RunTable(ops), cat)
  {
    if ops != [] {
      var init, op := ops[..|ops| - 1], ops[|ops| - 1];
      RunKeepsBoth(cat, init);
      match op
      case Register(add) =>
        AddKeepsLabels(RunTable(init), cat, add);
        AddKeepsBoth(RunTable(init), cat, add);
      case Unload(codes, extra) =>
        var r := RunTable(init);
        UnloadKeepsBoth(if extra then r.(extensions := map[], strategies := map[]) else r, cat, codes);
    }
  }

  /** Unloading a base forgets its extension: a base registered again never has a link, and keeps the strategy its
      extension asked for exactly when its library was a built-in one. */
  lemma ReloadedBaseLosesLink(r: Registry, cat: Catalogue, c: int, id: Id, extra: bool)
    requires Naming(cat) && Labelled(r, cat) && c in r.codes && r.codes[c] != id &&
             cat.metaOf(id) == cat.metaOf(r.codes[c])
    ensures var r' := Add(UnloadSpec(r, [c], extra), AddBase(id, cat.metaOf(id)));
            && PluginByCode(r', c) == Some(id) && LinkOf(r', id) == None && id in r'.plugins
            && r'.plugins[id].strategy == if !extra && c in r.strategies then r.strategies[c] else SINGLE
  {
    var cleared := if extra then r.(extensions := map[], strategies := map[]) else r;
    UnloadsOne(cleared, c);
    assert Labelled(cleared, cat);
    RemoveMaps(cleared, cat, c);
    RemovedLinks(cleared, cat, c);
  }

  lemma UnloadsOne(r: Registry, c: int)
    requires c in r.codes
    ensures RemoveCodes(r, [c]) == RemovePluginSpec(r, r.codes[c])
  {
    assert [c][..0] == [] && RemoveCodes(r, []) == r;
  }

  lemma RemovedLinks(r: Registry, cat: Catalogue, c: int)
    requires Labelled(r, cat) && c in r.codes
    ensures var r' := RemovePluginSpec(r, r.codes[c]);
            r'.extensions == r.extensions - {c} && r'.strategies == r.strategies
  {
  }

  /** A built-in library is unloaded and loaded again while the extension's library stays: the extension is still
      registered and the base runs by the extension's strategy, but has no extension any more. */
  lemma ReloadedBaseIsAlone(mode: Strategy)
    ensures var ops := [Register(AddBase(1, Meta(1, "base", true))),
                        Register(AddExtension(2, Meta(2, "x", true), 1, mode)), Unload([1], false),
                        Register(AddBase(3, Meta(1, "base", true)))];
            var before, after := RunTable(ops[..2]), RunTable(ops);
            && PluginByCode(before, 1) == Some(1) && LinkOf(before, 1) == Some(2)
            && PluginByCode(after, 1) == Some(3) && LinkOf(after, 3) == None
            && PluginByCode(after, 2) == Some(2) && 3 in after.plugins && after.plugins[3].strategy == mode
  {
    var b, e, b' := AddBase(1, Meta(1, "base", true)), AddExtension(2, Meta(2, "x", true), 1, mode),
                    AddBase(3, Meta(1, "base", true));
    var ops := [Register(b), Register(e), Unload([1], false), Register(b')];
    RunFour(ops);
    BaseWithExtension(b, e);
    BaseAlone(Add(Add(EMPTY_REGISTRY, b), e), b, b', e);
  }

  lemma RunFour(ops: seq<TableOp>)
    requires |ops| == 4
    ensures RunTable(ops[..2]) == TableStep(TableStep(EMPTY_REGISTRY, ops[0]), ops[1])
    ensures RunTable(ops) == TableStep(TableStep(RunTable(ops[..2]), ops[2]), ops[3])
  {
    assert ops[..3][..2] == ops[..2] && ops[..2][..1] == ops[..1] && ops[..1][..0] == [];
    assert RunTable(ops[..1]) == TableStep(EMPTY_REGISTRY, ops[0]);
    assert RunTable(ops[..3]) == TableStep(RunTable(ops[..2]), ops[2]);
  }

  lemma BaseWithExtension(b: AddOp, e: AddOp)
    requires b.AddBase? && e.AddExtension? && b.meta.permitted && e.meta.permitted && e.base == b.meta.code
    requires b.id != e.id && b.meta.code != e.meta.code
    ensures var r := Add(Add(EMPTY_REGISTRY, b), e);
            && PluginByCode(r, b.meta.code) == Some(b.id) && PluginByCode(r, e.meta.code) == Some(e.id)
            && LinkOf(r, b.id) == Some(e.id) && b.id in r.plugins && r.plugins[b.id].meta == b.meta
            && r.plugins[b.id].basic == 0 && r.strategies == map[b.meta.code := e.mode]
  {
    var r := Add(EMPTY_REGISTRY, b);
    assert PluginByCode(r, b.meta.code) == Some(b.id) && b.id in r.plugins && r.strategies == map[];
    LinkedOnAdd(r, e, b);
  }

  lemma BaseAlone(r: Registry, b: AddOp, b': AddOp, e: AddOp)
    requires b.AddBase? && b'.AddBase? && e.AddExtension? && b.meta == b'.meta && b.meta.permitted && b.id != b'.id
    requires b.id in r.plugins && r.plugins[b.id].meta == b.meta && r.plugins[b.id].basic != e.meta.code
    requires PluginByCode(r, b.meta.code) == Some(b.id) && PluginByCode(r, e.meta.code) == Some(e.id)
    requires e.meta.code != b.meta.code && b.meta.code in r.strategies
    ensures var r' := Add(UnloadSpec(r, [b.meta.code], false), b');
            && PluginByCode(r', b.meta.code) == Some(b'.id) && LinkOf(r', b'.id) == None
            && PluginByCode(r', e.meta.code) == Some(e.id)
            && b'.id in r'.plugins && r'.plugins[b'.id].strategy == r.strategies[b.meta.code]
  {
    UnloadsOne(r, b.meta.code);
  }
}
