/** The plugin manager's policy pipeline, one call at a time, over the policy manager. */
module Pipeline {
  import opened PolicyModel
  import opened PolicyManagers
  import opened ManagerModel
  import opened PipelineModel

  datatype CallCode = CallOk | InterfaceUnsupported | HandleFailed | GetPluginFailed | DelAdminFailed

  /** How the storage behaves during a call. */
  datatype CallIo = CallIo(load: LoadIo, combined: Outcome, admin: Outcome)

  class PluginManager {
    const policyMgr: PolicyManager
    var pluginsCode: map<int, Plugin>
    var pluginsName: map<string, Plugin>

    constructor (policyMgr: PolicyManager)
      ensures this.policyMgr == policyMgr && pluginsCode == map[] && pluginsName == map[]
    {
      this.policyMgr := policyMgr;
      pluginsCode, pluginsName := map[], map[];
    }

    /** `GetOthersMergePolicyData`: the other admins' non-empty values, in any order of the index entry. */
    method GetOthersMergePolicyData(plugin: Plugin, admin: string, userId: int, load: LoadIo) returns (merged: string)
      requires policyMgr.Valid()
      modifies policyMgr
      ensures policyMgr.Valid() && fresh(policyMgr.Managers() - old(policyMgr.Managers()))
      ensures policyMgr.State() == Loaded(old(policyMgr.State()), userId, load)
      ensures merged == OthersMerge(policyMgr.State().caches[userId], plugin, admin)
    {
      var _, values := policyMgr.GetAdminByPolicyName(plugin.name, userId, load);
      assert values == Holders(policyMgr.State().caches[userId], plugin.name);
      if values == map[] { return ""; }
      values := values - {admin};
      if values == map[] { return ""; }
      var data := CollectValues(values);
      return plugin.merge(data);
    }

    static method CollectValues(values: Items) returns (data: multiset<string>)
      ensures data == ValuesOf(values)
    {
      data := multiset{};
      var todo := values;
      while todo != map[]
        invariant data + ValuesOf(todo) == ValuesOf(values)
        decreases |todo|
      {
        var k :| k in todo;
        ValuesWithout(todo, k);
        if todo[k] != "" { data := data + multiset{todo[k]}; }
        todo := todo - {k};
      }
    }

    /** The three reads before the handler runs. */
    method ReadForUpdate(plugin: Plugin, admin: string, userId: int, load: LoadIo) returns (own: string, others: string)
      requires policyMgr.Valid()
      modifies policyMgr
      ensures policyMgr.Valid() && fresh(policyMgr.Managers() - old(policyMgr.Managers()))
      ensures policyMgr.State() == Loaded(old(policyMgr.State()), userId, load)
      ensures own == OrEmpty(ReadPolicy(policyMgr.State().caches[userId], admin, plugin.name))
      ensures others == OthersMerge(policyMgr.State().caches[userId], plugin, admin)
    {
      var oldCombined := policyMgr.GetPolicy("", plugin.name, userId, load);
      ghost var l := policyMgr.State();
      var value := policyMgr.GetPolicy(admin, plugin.name, userId, load);
      assert policyMgr.State() == l;
      own := OrEmpty(value);
      others := GetOthersMergePolicyData(plugin, admin, userId, load);
      assert policyMgr.State() == l;
    }

    method UpdateDevicePolicy(code: int, admin: string, data: Parcel, userId: int, io: CallIo) returns (err: CallCode)
      requires policyMgr.Valid()
      modifies policyMgr.Repr()
      ensures policyMgr.Valid() && fresh(policyMgr.Managers() - old(policyMgr.Managers()))
      ensures code !in pluginsCode ==> err == InterfaceUnsupported && policyMgr.State() == old(policyMgr.State())
      ensures code in pluginsCode ==>
                && (err == CallOk || err == HandleFailed)
                && CallResult(policyMgr.State(), err == CallOk) ==
                   UpdateSpec(old(policyMgr.State()), pluginsCode[code], admin, data, userId, io.load, io.combined,
                              io.admin)
    {
      if code !in pluginsCode { return InterfaceUnsupported; }
      var plugin := pluginsCode[code];
      var own, others := ReadForUpdate(plugin, admin, userId, io.load);
      var handled := plugin.handle(data, own, others);
      if !handled.ok { return HandleFailed; }
      if plugin.needSave && handled.isChanged {
        var _ := policyMgr.SetPolicy(admin, plugin.name, handled.policyData, handled.mergeData, userId,
                                     io.load, io.combined, io.admin);
      }
      return CallOk;
    }

    method RemoveAdminItem(admin: string, policy: string, value: string, userId: int, io: CallIo)
      returns (err: CallCode)
      requires policyMgr.Valid()
      modifies policyMgr.Repr()
      ensures policyMgr.Valid() && fresh(policyMgr.Managers() - old(policyMgr.Managers()))
      ensures policy !in pluginsName ==> err == GetPluginFailed && policyMgr.State() == old(policyMgr.State())
      ensures policy in pluginsName && pluginsName[policy].name == policy ==>
                && (err == CallOk || err == DelAdminFailed)
                && CallResult(policyMgr.State(), err == CallOk) ==
                   RemoveSpec(old(policyMgr.State()), pluginsName[policy], admin, userId, io.load, io.combined,
                              io.admin)
    {
      if policy !in pluginsName { return GetPluginFailed; }
      var plugin := pluginsName[policy];
      var merged := GetOthersMergePolicyData(plugin, admin, userId, io.load);
      if plugin.needSave {
        var setErr := DeleteAdminItem(admin, policy, merged, userId, io);
        if setErr != ErrOk { return DelAdminFailed; }
      }
      return CallOk;
    }

    /** The saving part of `RemoveAdminItem`. */
    method DeleteAdminItem(admin: string, policy: string, merged: string, userId: int, io: CallIo)
      returns (err: ErrCode)
      requires policyMgr.Valid()
      modifies policyMgr.Repr()
      ensures policyMgr.Valid() && fresh(policyMgr.Managers() - old(policyMgr.Managers()))
      ensures ManagerResult(policyMgr.State(), err) ==
              RemoveItemSpec(old(policyMgr.State()), policy, admin, merged, userId, io.load, io.combined, io.admin)
    {
      var found, holders := policyMgr.GetAdminByPolicyName(policy, userId, io.load);
      if found == ErrPolicyNotFound || holders == map[] {
        err := policyMgr.SetPolicy("", policy, "", "", userId, io.load, io.combined, io.admin);
      } else {
        err := policyMgr.SetPolicy(admin, policy, "", merged, userId, io.load, io.combined, io.admin);
      }
    }

    /** Event dispatch to every admin holding the policy, in some order of the values read before the loop. */
    method DispatchForAdmins(plugin: Plugin, data: Parcel, userId: int, io: CallIo)
      returns (order: seq<string>, values: Items)
      requires policyMgr.Valid()
      modifies policyMgr.Repr()
      ensures policyMgr.Valid() && fresh(policyMgr.Managers() - old(policyMgr.Managers()))
      ensures var l := Loaded(old(policyMgr.State()), userId, io.load);
              && values == Holders(l.caches[userId], plugin.name)
              && IsOrderOf(order, values)
              && policyMgr.State() ==
                 EventRounds(l, plugin, order, values, data, userId, io.load, io.combined, io.admin)
    {
      var _, admins := policyMgr.GetAdminByPolicyName(plugin.name, userId, io.load);
      values := admins;
      order := DispatchValues(plugin, admins, data, userId, io);
    }

    method DispatchValues(plugin: Plugin, values: Items, data: Parcel, userId: int, io: CallIo)
      returns (order: seq<string>)
      requires policyMgr.Valid()
      modifies policyMgr.Repr()
      ensures policyMgr.Valid() && fresh(policyMgr.Managers() - old(policyMgr.Managers()))
      ensures IsOrderOf(order, values)
      ensures policyMgr.State() == EventRounds(old(policyMgr.State()), plugin, order, values, data, userId,
                                               io.load, io.combined, io.admin)
    {
      ghost var start := policyMgr.State();
      ghost var now := start;
      order := ListAdmins(values.Keys);
      ghost var done: seq<string> := [];
      var i := 0;
      while i < |order|
        invariant 0 <= i <= |order| && done == order[..i]
        invariant policyMgr.Valid() && fresh(policyMgr.Managers() - old(policyMgr.Managers()))
        invariant forall a :: a in done ==> a in values
        invariant policyMgr.State() == now
        invariant now == EventRounds(start, plugin, done, values, data, userId, io.load, io.combined, io.admin)
      {
        now := DispatchNext(plugin, order[i], values, data, userId, io, start, done, now);
        done := done + [order[i]];
        i := i + 1;
      }
      assert done == order;
    }

    /** The keys of an unordered map in some order. */
    static method ListAdmins(admins: set<string>) returns (order: seq<string>)
      ensures forall a :: a in order <==> a in admins
      ensures forall i, j :: 0 <= i < j < |order| ==> order[i] != order[j]
    {
      order := [];
      var todo := admins;
      while todo != {}
        invariant todo <= admins
        invariant forall a :: a in order <==> a in admins - todo
        invariant forall i, j :: 0 <= i < j < |order| ==> order[i] != order[j]
        decreases |todo|
      {
        var a :| a in todo;
        order := order + [a];
        todo := todo - {a};
      }
    }

    method DispatchNext(plugin: Plugin, admin: string, values: Items, data: Parcel, userId: int, io: CallIo,
                        ghost start: ManagerState, ghost done: seq<string>, ghost now: ManagerState)
      returns (ghost next: ManagerState)
      requires policyMgr.Valid() && admin in values && forall a :: a in done ==> a in values
      requires policyMgr.State() == now
      requires now == EventRounds(start, plugin, done, values, data, userId, io.load, io.combined, io.admin)
      modifies policyMgr.Repr()
      ensures policyMgr.Valid() && fresh(policyMgr.Managers() - old(policyMgr.Managers()))
      ensures policyMgr.State() == next
      ensures forall a :: a in done + [admin] ==> a in values
      ensures next == EventRounds(start, plugin, done + [admin], values, data, userId, io.load, io.combined, io.admin)
    {
      DispatchOne(plugin, admin, values[admin], data, userId, io);
      next := policyMgr.State();
      EventRoundsNext(start, plugin, done, values, data, userId, io.load, io.combined, io.admin, admin);
    }

    /** The reads of one round of the dispatch. */
    method ReadForEvent(plugin: Plugin, admin: string, userId: int, load: LoadIo) returns (others: string)
      requires policyMgr.Valid()
      modifies policyMgr
      ensures policyMgr.Valid() && fresh(policyMgr.Managers() - old(policyMgr.Managers()))
      ensures policyMgr.State() == Loaded(old(policyMgr.State()), userId, load)
      ensures others == OthersMerge(policyMgr.State().caches[userId], plugin, admin)
    {
      var _ := policyMgr.GetPolicy("", plugin.name, userId, load);
      ghost var l := policyMgr.State();
      others := GetOthersMergePolicyData(plugin, admin, userId, load);
      assert policyMgr.State() == l;
    }

    method DispatchOne(plugin: Plugin, admin: string, value: string, data: Parcel, userId: int, io: CallIo)
      requires policyMgr.Valid()
      modifies policyMgr.Repr()
      ensures policyMgr.Valid() && fresh(policyMgr.Managers() - old(policyMgr.Managers()))
      ensures policyMgr.State() ==
              EventStep(old(policyMgr.State()), plugin, admin, value, data, userId, io.load, io.combined, io.admin)
    {
      var others := ReadForEvent(plugin, admin, userId, io.load);
      var e := plugin.onEvent(data, value, others);
      if plugin.needSave {
        var _ := policyMgr.SetPolicy(admin, plugin.name, e.policyData, e.mergeData, userId, io.load, io.combined,
                                     io.admin);
      }
    }
  }
}
