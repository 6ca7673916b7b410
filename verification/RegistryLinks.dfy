/** The links from base plugins to their extensions over all registrations and unloads: a registered plugin never keeps
    a link to an object that is not registered, so that no call runs through a library that was closed. */
module RegistryLinks {
  import opened PolicyModel
  import opened PluginRegistry

  /** The code a plugin of this code extends, when it is an extension. */
  type Kinds = int -> Option<int>

  function BaseOf(kinds: Kinds, code: int): int {
    if kinds(code).Some? then kinds(code).value else 0
  }

  predicate OfKind(op: AddOp, kinds: Kinds) {
    match op
    case AddBase(_, meta) => kinds(meta.code) == None
    case AddExtension(_, meta, base, _) => kinds(meta.code) == Some(base)
  }

  /** `x` is registered under its own code, as an extension of `c`. */
  predicate Extending(r: Registry, x: Id, c: int) {
    && x in r.plugins && r.plugins[x].meta.code in r.codes && r.codes[r.plugins[x].meta.code] == x
    && r.plugins[x].basic == c
  }

  ghost predicate LinkFits(r: Registry, c: int)
    requires c in r.codes
  {
    LinkOf(r, r.codes[c]) == None || Extending(r, LinkOf(r, r.codes[c]).value, c)
  }

  ghost predicate LinksFit(r: Registry, cat: Catalogue, kinds: Kinds) {
    && Labelled(r, cat)
    && (forall c :: c in r.codes ==> r.plugins[r.codes[c]].basic == BaseOf(kinds, c) && LinkFits(r, c))
    && (forall c :: c in r.extensions ==> kinds(r.extensions[c]) == Some(c))
  }

  // ----- Registering -----

  lemma PluginLinks(r: Registry, cat: Catalogue, kinds: Kinds, id: Id, meta: Meta)
    requires LinksFit(r, cat, kinds) && meta == cat.metaOf(id) && meta.permitted && meta.code !in r.codes
    ensures var r' := AddPluginSpec(r, id, meta).registry;
            && Labelled(r', cat) && r'.codes == r.codes[meta.code := id] && id in r'.plugins
            && r'.extensions == r.extensions && LinkFitsBut(r', kinds, meta.code)
            && (forall c :: c in r.codes ==> LinkOf(r', r.codes[c]) != Some(id))
            && (LinkOf(r', id) == None || LinkedTo(r', kinds, LinkOf(r', id).value, meta.code))
  {
    var r' := AddPluginSpec(r, id, meta).registry;
    forall c | c in r.codes ensures r'.plugins[r.codes[c]] == r.plugins[r.codes[c]] { assert r.codes[c] != id; }
    forall c | c in r.codes ensures LinkFits(r', c) && LinkOf(r', r.codes[c]) != Some(id) {
      assert LinkFits(r, c);
      if LinkOf(r, r.codes[c]).Some? {
        var x := LinkOf(r, r.codes[c]).value;
        assert Extending(r, x, c) && x != id;
      }
    }
    if LinkOf(r', id).Some? {
      var e := r.extensions[meta.code];
      assert kinds(e) == Some(meta.code) && PluginByCode(r', e).Some?;
    }
  }

  /** All but the plugin of this code are as they should be. */
  ghost predicate LinkFitsBut(r: Registry, kinds: Kinds, code: int) {
    forall c :: c in r.codes && c != code ==>
      r.codes[c] in r.plugins && r.plugins[r.codes[c]].basic == BaseOf(kinds, c) && LinkFits(r, c)
  }

  predicate LinkedTo(r: Registry, kinds: Kinds, x: Id, c: int) {
    && x in r.plugins && r.plugins[x].meta.code in r.codes && r.codes[r.plugins[x].meta.code] == x
    && kinds(r.plugins[x].meta.code) == Some(c)
  }

  lemma BaseLinks(r: Registry, cat: Catalogue, kinds: Kinds, op: AddOp)
    requires LinksFit(r, cat, kinds) && op.meta == cat.metaOf(op.id) && op.meta.code !in r.codes
    requires OfKind(op, kinds) && op.AddBase?
    ensures LinksFit(Add(r, op), cat, kinds)
  {
    if op.meta.permitted {
      var r' := Add(r, op);
      PluginLinks(r, cat, kinds, op.id, op.meta);
      if LinkOf(r', op.id).Some? { assert r'.plugins[LinkOf(r', op.id).value].meta.code != op.meta.code; }
    }
  }

  /** What becomes of every object: the extension has its base, and the base, when registered, its extension. */
  ghost predicate Extended(q: Registry, r': Registry, op: AddOp)
    requires op.AddExtension?
  {
    && r'.plugins.Keys == q.plugins.Keys
    && forall o :: o in q.plugins ==>
         && r'.plugins[o].meta == q.plugins[o].meta
         && r'.plugins[o].basic == (if o == op.id then op.base else q.plugins[o].basic)
         && r'.plugins[o].extension == (if PluginByCode(q, op.base) == Some(o) then Some(op.id)
                                        else q.plugins[o].extension)
  }

  lemma ExtensionObjects(r: Registry, op: AddOp)
    requires op.AddExtension? && op.meta.permitted
    ensures var q, r' := AddPluginSpec(r, op.id, op.meta).registry, Add(r, op);
            && r'.codes == q.codes && r'.extensions == InsertKey(q.extensions, op.base, op.meta.code)
            && Extended(q, r', op)
  {
    var q, r' := AddPluginSpec(r, op.id, op.meta).registry, Add(r, op);
    forall o ensures (o in q.plugins <==> o in r'.plugins) {
      MarkedObject(r, op, o);
      LinkBaseObject(q, op.base, op.id, op.mode, o);
    }
    forall o | o in q.plugins
      ensures r'.plugins[o].meta == q.plugins[o].meta
      ensures r'.plugins[o].basic == if o == op.id then op.base else q.plugins[o].basic
      ensures r'.plugins[o].extension ==
              if PluginByCode(q, op.base) == Some(o) then Some(op.id) else q.plugins[o].extension
    {
      MarkedObject(r, op, o);
      LinkBaseObject(q, op.base, op.id, op.mode, o);
    }
    ExtensionMaps(r, op);
  }

  lemma ExtensionMaps(r: Registry, op: AddOp)
    requires op.AddExtension? && op.meta.permitted
    ensures var q, r' := AddPluginSpec(r, op.id, op.meta).registry, Add(r, op);
            r'.codes == q.codes && r'.extensions == InsertKey(q.extensions, op.base, op.meta.code)
  {
  }

  lemma ExtensionLinks(r: Registry, cat: Catalogue, kinds: Kinds, op: AddOp)
    requires LinksFit(r, cat, kinds) && op.meta == cat.metaOf(op.id) && op.meta.code !in r.codes
    requires OfKind(op, kinds) && op.AddExtension? && op.meta.permitted
    ensures LinksFit(Add(r, op), cat, kinds)
  {
    var q, r' := AddPluginSpec(r, op.id, op.meta).registry, Add(r, op);
    PluginLinks(r, cat, kinds, op.id, op.meta);
    ExtensionObjects(r, op);
    AddKeepsLabels(r, cat, op);
    forall c | c in r'.codes ensures r'.plugins[r'.codes[c]].basic == BaseOf(kinds, c) && LinkFits(r', c) {
      ExtendedLink(q, r', cat, kinds, op, c);
    }
  }

  lemma ExtendedLink(q: Registry, r': Registry, cat: Catalogue, kinds: Kinds, op: AddOp, c: int)
    requires op.AddExtension? && OfKind(op, kinds) && Labelled(q, cat) && op.meta == cat.metaOf(op.id)
    requires LinkFitsBut(q, kinds, op.meta.code) && PluginByCode(q, op.meta.code) == Some(op.id) && op.id in q.plugins
    requires LinkOf(q, op.id) == None || LinkedTo(q, kinds, LinkOf(q, op.id).value, op.meta.code)
    requires c in q.codes && c != op.meta.code ==> LinkOf(q, q.codes[c]) != Some(op.id)
    requires r'.codes == q.codes && c in q.codes && Extended(q, r', op)
    ensures r'.codes[c] in r'.plugins && r'.plugins[r'.codes[c]].basic == BaseOf(kinds, c) && LinkFits(r', c)
  {
    var o := q.codes[c];
    assert q.plugins[o].meta.code == c;
    if PluginByCode(q, op.base) == Some(o) {
      assert op.base == c && Extending(r', op.id, c);
    } else if LinkOf(q, o).Some? {
      var x := LinkOf(q, o).value;
      if c != op.meta.code { assert LinkFits(q, c); }
      assert x in q.plugins && q.codes[q.plugins[x].meta.code] == x;
    }
  }

  // ----- Unloading -----

  lemma RemovalLinks(r: Registry, cat: Catalogue, kinds: Kinds, c: int)
    requires LinksFit(r, cat, kinds) && Naming(cat) && c in r.codes
    ensures LinksFit(RemovePluginSpec(r, r.codes[c]), cat, kinds)
  {
    var id, r' := r.codes[c], RemovePluginSpec(r, r.codes[c]);
    RemoveMaps(r, cat, c);
    RemovedLinks(r, cat, c);
    RemovedObjects(r, c);
    assert Labelled(r', cat);
    forall d | d in r'.codes ensures r'.plugins[r'.codes[d]].basic == BaseOf(kinds, d) && LinkFits(r', d) {
      assert r.plugins[r.codes[d]].basic == BaseOf(kinds, d) && LinkFits(r, d);
      if LinkOf(r', r'.codes[d]).Some? {
        var x := LinkOf(r, r.codes[d]).value;
        assert Extending(r, x, d);
        assert x != id;
      }
    }
  }

  /** What becomes of every object: the removed one and its base lose their links. */
  lemma RemovedObjects(r: Registry, c: int)
    requires c in r.codes && r.codes[c] in r.plugins && r.plugins[r.codes[c]].meta.code == c
    requires r.plugins[r.codes[c]].meta.permitted
    ensures var id, r' := r.codes[c], RemovePluginSpec(r, r.codes[c]);
            && r'.plugins.Keys == r.plugins.Keys && r'.codes == r.codes - {c}
            && (forall o :: o in r.plugins ==>
                  && r'.plugins[o].meta == r.plugins[o].meta && r'.plugins[o].basic == r.plugins[o].basic
                  && r'.plugins[o].extension ==
                     if o == id || (r.plugins[id].basic != c && PluginByCode(r, r.plugins[id].basic) == Some(o))
                     then None
                     else r.plugins[o].extension)
  {
  }

  lemma {:induction false} UnloadLinks(r: Registry, cat: Catalogue, kinds: Kinds, codes: seq<int>)
    requires LinksFit(r, cat, kinds) && Naming(cat)
    ensures LinksFit(RemoveCodes(r, codes), cat, kinds)
  {
    if codes != [] {
      var init, c := codes[..|codes| - 1], codes[|codes| - 1];
      UnloadLinks(r, cat, kinds, init);
      if c in RemoveCodes(r, init).codes { RemovalLinks(RemoveCodes(r, init), cat, kinds, c); }
    }
  }

  // ----- Runs -----

  /** Each code is registered in one way, by objects with fixed metadata, and only while it is not registered. */
  ghost predicate Regular(cat: Catalogue, kinds: Kinds, ops: seq<TableOp>) {
    forall i :: 0 <= i < |ops| && ops[i].Register? ==>
      && ops[i].add.meta == cat.metaOf(ops[i].add.id) && OfKind(ops[i].add, kinds)
      && ops[i].add.meta.code !in RunTable(ops[..i]).codes
  }

  /** Through any such registrations and any unloads, the link of every registered plugin is an extension of it that is
      registered under its own code. */
  lemma {:induction false} RunKeepsLinks(cat: Catalogue, kinds: Kinds, ops: seq<TableOp>)
    requires Naming(cat) && Regular(cat, kinds, ops)
    ensures LinksFit(RunTable(ops), cat, kinds)
    ensures var r := RunTable(ops);
            forall c :: c in r.codes && LinkOf(r, r.codes[c]).Some? ==> Extending(r, LinkOf(r, r.codes[c]).value, c)
  {
    if ops != [] {
      var init, op := ops[..|ops| - 1], ops[|ops| - 1];
      assert forall i :: 0 <= i < |init| ==> init[i] == ops[i] && init[..i] == ops[..i];
      RunKeepsLinks(cat, kinds, init);
      StepKeepsLinks(RunTable(init), cat, kinds, op);
    }
    var r := RunTable(ops);
    forall c | c in r.codes && LinkOf(r, r.codes[c]).Some? ensures Extending(r, LinkOf(r, r.codes[c]).value, c) {
      assert LinkFits(r, c);
    }
  }

  lemma StepKeepsLinks(r: Registry, cat: Catalogue, kinds: Kinds, op: TableOp)
    requires LinksFit(r, cat, kinds) && Naming(cat)
    requires op.Register? ==>
               op.add.meta == cat.metaOf(op.add.id) && OfKind(op.add, kinds) && op.add.meta.code !in r.codes
    ensures LinksFit(TableStep(r, op), cat, kinds)
  {
    match op
    case Register(add) =>
      if add.AddBase? { BaseLinks(r, cat, kinds, add); }
      else if add.meta.permitted { ExtensionLinks(r, cat, kinds, add); }
    case Unload(codes, extra) =>
      var cleared := if extra then r.(extensions := map[], strategies := map[]) else r;
      ClearedLinks(r, cat, kinds, extra);
      UnloadLinks(cleared, cat, kinds, codes);
  }

  lemma ClearedLinks(r: Registry, cat: Catalogue, kinds: Kinds, extra: bool)
    requires LinksFit(r, cat, kinds)
    ensures LinksFit(if extra then r.(extensions := map[], strategies := map[]) else r, cat, kinds)
  {
    var cleared := if extra then r.(extensions := map[], strategies := map[]) else r;
    assert Labelled(cleared, cat);
    forall c | c in cleared.codes
      ensures cleared.plugins[cleared.codes[c]].basic == BaseOf(kinds, c) && LinkFits(cleared, c)
    {
      assert r.plugins[r.codes[c]].basic == BaseOf(kinds, c) && LinkFits(r, c);
    }
  }

  /** An extension that is registered and linked is unloaded: it is registered no more, and neither it nor its base,
      which stays registered, has a link. */
  lemma UnloadedExtensionIsUnlinked(r: Registry, e: AddOp, b: Id, extra: bool)
    requires e.AddExtension? && e.meta.permitted && e.meta.code != e.base && e.id != b
    requires PluginByCode(r, e.meta.code) == Some(e.id) && e.id in r.plugins && r.plugins[e.id].meta == e.meta
    requires r.plugins[e.id].basic == e.base && PluginByCode(r, e.base) == Some(b) && b in r.plugins
    ensures var r' := UnloadSpec(r, [e.meta.code], extra);
            && PluginByCode(r', e.meta.code) == None && PluginByCode(r', e.base) == Some(b)
            && LinkOf(r', b) == None && LinkOf(r', e.id) == None
  {
    UnloadsOne(if extra then r.(extensions := map[], strategies := map[]) else r, e.meta.code);
  }

  /** From an empty registry: a base, its extension, and the unload of the extension's library. */
  lemma ExtensionComesAndGoes(mode: Strategy)
    ensures var ops := [Register(AddBase(1, Meta(1, "base", true))),
                        Register(AddExtension(2, Meta(2, "x", true), 1, mode)), Unload([2], true)];
            && LinkOf(RunTable(ops[..2]), 1) == Some(2)
            && PluginByCode(RunTable(ops), 2) == None && PluginByCode(RunTable(ops), 1) == Some(1)
            && LinkOf(RunTable(ops), 1) == None
  {
    var b, e := AddBase(1, Meta(1, "base", true)), AddExtension(2, Meta(2, "x", true), 1, mode);
    var ops := [Register(b), Register(e), Unload([2], true)];
    var r := Add(Add(EMPTY_REGISTRY, b), e);
    assert ops[..2][..1] == [Register(b)] && [Register(b)][..0] == [];
    assert RunTable([Register(b)]) == Add(EMPTY_REGISTRY, b);
    assert RunTable(ops[..2]) == r;
    BaseWithExtension(b, e);
    UnloadedExtensionIsUnlinked(r, e, 1, true);
  }
}
