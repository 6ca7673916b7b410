/** The two policy tables and one user's manager, updated in place; every method is proved against its
    function in PolicyModel.dfy. How a storage call ends is an argument. */
module PolicyStore {
  import opened PolicyModel

  class DevicePoliciesStorageRdb {
    var adminRows: seq<AdminRow>
    var combinedRows: seq<CombinedRow>

    ghost function Rows(): Tables
      reads this
    {
      Tables(adminRows, combinedRows)
    }

    constructor (t: Tables)
      ensures Rows() == t
    {
      adminRows, combinedRows := t.adminRows, t.combinedRows;
    }

    method InsertAdminPolicy(userId: int, admin: string, policy: string, value: string, ok: bool) returns (done: bool)
      modifies this
      ensures done == ok
      ensures Rows() == if ok
                        then old(Rows()).(adminRows := InsertAdminRow(old(adminRows), userId, admin, policy, value))
                        else old(Rows())
    {
      if ok { adminRows := InsertAdminRow(adminRows, userId, admin, policy, value); }
      return ok;
    }

    method UpdateAdminPolicy(userId: int, admin: string, policy: string, value: string, ok: bool) returns (done: bool)
      modifies this
      ensures done == ok
      ensures Rows() == if ok
                        then old(Rows()).(adminRows := UpdateAdminRows(old(adminRows), userId, admin, policy, value))
                        else old(Rows())
    {
      if ok { adminRows := UpdateAdminRows(adminRows, userId, admin, policy, value); }
      return ok;
    }

    method ReplaceAdminPolicy(userId: int, admin: string, newAdmin: string, ok: bool) returns (done: bool)
      modifies this
      ensures done == ok
      ensures Rows() == if ok then old(Rows()).(adminRows := RenameAdminRows(old(adminRows), userId, admin, newAdmin))
                        else old(Rows())
    {
      if ok { adminRows := RenameAdminRows(adminRows, userId, admin, newAdmin); }
      return ok;
    }

    method DeleteAdminPolicy(userId: int, admin: string, policy: string, ok: bool) returns (done: bool)
      modifies this
      ensures done == ok
      ensures Rows() == if ok then old(Rows()).(adminRows := DeleteAdminRows(old(adminRows), userId, admin, policy))
                        else old(Rows())
    {
      if ok { adminRows := DeleteAdminRows(adminRows, userId, admin, policy); }
      return ok;
    }

    method InsertCombinedPolicy(userId: int, policy: string, value: string, ok: bool) returns (done: bool)
      modifies this
      ensures done == ok
      ensures Rows() == if ok
                        then old(Rows()).(combinedRows := InsertCombinedRow(old(combinedRows), userId, policy, value))
                        else old(Rows())
    {
      if ok { combinedRows := InsertCombinedRow(combinedRows, userId, policy, value); }
      return ok;
    }

    method UpdateCombinedPolicy(userId: int, policy: string, value: string, ok: bool) returns (done: bool)
      modifies this
      ensures done == ok
      ensures Rows() == if ok
                        then old(Rows()).(combinedRows := UpdateCombinedRows(old(combinedRows), userId, policy, value))
                        else old(Rows())
    {
      if ok { combinedRows := UpdateCombinedRows(combinedRows, userId, policy, value); }
      return ok;
    }

    method DeleteCombinedPolicy(userId: int, policy: string, ok: bool) returns (done: bool)
      modifies this
      ensures done == ok
      ensures Rows() == if ok then old(Rows()).(combinedRows := DeleteCombinedRows(old(combinedRows), userId, policy))
                        else old(Rows())
    {
      if ok { combinedRows := DeleteCombinedRows(combinedRows, userId, policy); }
      return ok;
    }

    /** The cursor loop over one user's rows; `insert` never overwrites. */
    method QueryAdminPolicy(userId: int, admins: NestedItems, index: NestedItems, ok: bool)
      returns (done: bool, admins': NestedItems, index': NestedItems)
      ensures done == ok
      ensures var rows := SelectAdminRows(adminRows, userId);
              admins' == (if ok then LoadAdmins(admins, rows) else admins) &&
              index' == (if ok then LoadIndex(index, rows) else index)
    {
      admins', index' := admins, index;
      if !ok { return false, admins', index'; }
      var rows := SelectAdminRows(adminRows, userId);
      var i := 0;
      while i < |rows|
        invariant 0 <= i <= |rows|
        invariant admins' == LoadAdmins(admins, rows[..i])
        invariant index' == LoadIndex(index, rows[..i])
      {
        assert rows[..i + 1][..i] == rows[..i];
        admins' := ParseNested(admins', rows[i].admin, rows[i].policy, rows[i].value);
        index' := ParseNested(index', rows[i].policy, rows[i].admin, rows[i].value);
        i := i + 1;
      }
      assert rows[..i] == rows;
      return true, admins', index';
    }

    static method ParseNested(m: NestedItems, outer: string, inner: string, value: string) returns (m': NestedItems)
      ensures m' == InsertNew(m, outer, inner, value)
    {
      if outer !in m {
        return m[outer := map[inner := value]];
      }
      if inner in m[outer] {
        return m;
      }
      return m[outer := m[outer][inner := value]];
    }

    method QueryCombinedPolicy(userId: int, items: Items, ok: bool) returns (done: bool, items': Items)
      ensures done == ok
      ensures items' == if ok then LoadCombined(items, SelectCombinedRows(combinedRows, userId)) else items
    {
      items' := items;
      if !ok { return false, items'; }
      var rows := SelectCombinedRows(combinedRows, userId);
      var i := 0;
      while i < |rows|
        invariant 0 <= i <= |rows|
        invariant items' == LoadCombined(items, rows[..i])
      {
        assert rows[..i + 1][..i] == rows[..i];
        if rows[i].policy !in items' { items' := items'[rows[i].policy := rows[i].value]; }
        i := i + 1;
      }
      assert rows[..i] == rows;
      return true, items';
    }

    /** The distinct user ids of the admin-policy rows. */
    method QueryAllUserId(ok: bool) returns (done: bool, userIds: seq<int>)
      ensures done == ok
      ensures forall u :: u in userIds <==> ok && exists r :: r in adminRows && r.userId == u
      ensures forall i, j :: 0 <= i < j < |userIds| ==> userIds[i] != userIds[j]
    {
      userIds := [];
      if !ok { return false, userIds; }
      var i := 0;
      while i < |adminRows|
        invariant 0 <= i <= |adminRows|
        invariant forall u :: u in userIds <==> exists k :: 0 <= k < i && adminRows[k].userId == u
        invariant forall k, l :: 0 <= k < l < |userIds| ==> userIds[k] != userIds[l]
      {
        if adminRows[i].userId !in userIds { userIds := userIds + [adminRows[i].userId]; }
        i := i + 1;
      }
      return true, userIds;
    }
  }

  class UserPolicyManager {
    const userId: int
    const storage: DevicePoliciesStorageRdb
    var combinedPolicies: Items
    var adminPolicies: NestedItems
    var policyAdmins: NestedItems

    ghost function State(): Cache
      reads this
    {
      Cache(combinedPolicies, adminPolicies, policyAdmins)
    }

    constructor (userId: int, storage: DevicePoliciesStorageRdb)
      ensures this.userId == userId && this.storage == storage
      ensures State() == EMPTY_CACHE
    {
      this.userId, this.storage := userId, storage;
      combinedPolicies, adminPolicies, policyAdmins := map[], map[], map[];
    }

    method Init(adminIo: Outcome, combinedIo: Outcome)
      modifies this
      ensures State() == InitSpec(old(State()), storage.Rows(), userId, adminIo, combinedIo)
    {
      if adminIo == Unavailable { return; }
      var done, admins, index := storage.QueryAdminPolicy(userId, adminPolicies, policyAdmins, adminIo == Done);
      adminPolicies, policyAdmins := admins, index;
      if done {
        var _, combined := storage.QueryCombinedPolicy(userId, combinedPolicies, combinedIo == Done);
        combinedPolicies := combined;
      }
    }

    method GetAdminByPolicyName(policy: string) returns (err: ErrCode, values: Items)
      ensures policy in policyAdmins ==> err == ErrOk && values == policyAdmins[policy]
      ensures policy !in policyAdmins ==> err == ErrPolicyNotFound && values == map[]
    {
      if policy in policyAdmins { return ErrOk, policyAdmins[policy]; }
      return ErrPolicyNotFound, map[];
    }

    method GetAllPolicyByAdmin(admin: string) returns (err: ErrCode, values: Items)
      ensures admin in adminPolicies ==> err == ErrOk && values == adminPolicies[admin]
      ensures admin !in adminPolicies ==> err == ErrPolicyNotFind && values == map[]
    {
      if admin in adminPolicies { return ErrOk, adminPolicies[admin]; }
      return ErrPolicyNotFind, map[];
    }

    method GetPolicy(admin: string, policy: string) returns (value: Option<string>)
      ensures value == if admin == "" then Find(combinedPolicies, policy) else Lookup(adminPolicies, admin, policy)
    {
      if admin == "" {
        return if policy in combinedPolicies then Some(combinedPolicies[policy]) else None;
      }
      if admin in adminPolicies && policy in adminPolicies[admin] { return Some(adminPolicies[admin][policy]); }
      return None;
    }

    method SetAdminList(admin: string, policy: string, value: string)
      modifies this`policyAdmins
      ensures policyAdmins == Put(old(policyAdmins), policy, admin, value)
    {
      if policy !in policyAdmins {
        policyAdmins := policyAdmins[policy := map[admin := value]];
        return;
      }
      policyAdmins := policyAdmins[policy := policyAdmins[policy][admin := value]];
    }

    method SetAdminPolicy(admin: string, policy: string, value: string, io: Outcome) returns (err: ErrCode)
      modifies this, storage
      ensures StoreResult(State(), storage.Rows(), err) ==
              SetAdminPolicySpec(old(State()), old(storage.Rows()), userId, admin, policy, value, io)
    {
      if io == Unavailable { return ErrGetStorageRdbFailed; }
      SetAdminList(admin, policy, value);
      if admin !in adminPolicies {
        var done := storage.InsertAdminPolicy(userId, admin, policy, value, io == Done);
        if done {
          adminPolicies := adminPolicies[admin := map[policy := value]];
          return ErrOk;
        }
        return ErrPolicySetFailed;
      }
      var items := adminPolicies[admin];
      var done;
      if policy in items {
        done := storage.UpdateAdminPolicy(userId, admin, policy, value, io == Done);
      } else {
        done := storage.InsertAdminPolicy(userId, admin, policy, value, io == Done);
      }
      if done {
        adminPolicies := adminPolicies[admin := items[policy := value]];
        return ErrOk;
      }
      return ErrPolicySetFailed;
    }

    method SetCombinedPolicy(policy: string, value: string, io: Outcome) returns (err: ErrCode)
      modifies this`combinedPolicies, storage
      ensures StoreResult(State(), storage.Rows(), err) ==
              SetCombinedPolicySpec(old(State()), old(storage.Rows()), userId, policy, value, io)
    {
      if io == Unavailable { return ErrGetStorageRdbFailed; }
      var done;
      if policy in combinedPolicies {
        done := storage.UpdateCombinedPolicy(userId, policy, value, io == Done);
      } else {
        done := storage.InsertCombinedPolicy(userId, policy, value, io == Done);
      }
      if done {
        combinedPolicies := combinedPolicies[policy := value];
        return ErrOk;
      }
      return ErrPolicySetFailed;
    }

    method DeleteAdminList(admin: string, policy: string)
      modifies this`policyAdmins
      ensures policyAdmins == if Lookup(old(policyAdmins), policy, admin).Some?
                              then Drop(old(policyAdmins), policy, admin)
                              else old(policyAdmins)
    {
      if policy !in policyAdmins { return; }
      var values := policyAdmins[policy];
      if admin !in values { return; }
      values := values - {admin};
      policyAdmins := policyAdmins[policy := values];
      if values == map[] { policyAdmins := policyAdmins - {policy}; }
    }

    method DeleteAdminPolicy(admin: string, policy: string, io: Outcome) returns (err: ErrCode)
      modifies this, storage
      ensures StoreResult(State(), storage.Rows(), err) ==
              DeleteAdminPolicySpec(old(State()), old(storage.Rows()), userId, admin, policy, io)
    {
      if io == Unavailable { return ErrGetStorageRdbFailed; }
      var done := storage.DeleteAdminPolicy(userId, admin, policy, io == Done);
      if !done { return ErrPolicyDelFailed; }
      if admin in adminPolicies {
        var items := adminPolicies[admin];
        if policy in items { items := items - {policy}; }
        adminPolicies := adminPolicies[admin := items];
        if items == map[] { adminPolicies := adminPolicies - {admin}; }
        DeleteAdminList(admin, policy);
        assert old(adminPolicies)[admin] - {policy} == items;
      }
      return ErrOk;
    }

    method DeleteCombinedPolicy(policy: string, io: Outcome) returns (err: ErrCode)
      modifies this`combinedPolicies, storage
      ensures StoreResult(State(), storage.Rows(), err) ==
              DeleteCombinedPolicySpec(old(State()), old(storage.Rows()), userId, policy, io)
    {
      if io == Unavailable { return ErrGetStorageRdbFailed; }
      var done := storage.DeleteCombinedPolicy(userId, policy, io == Done);
      if !done { return ErrPolicyDelFailed; }
      combinedPolicies := combinedPolicies - {policy};
      return ErrOk;
    }

    method SetPolicy(admin: string, policy: string, adminValue: string, merged: string,
                     combinedIo: Outcome, adminIo: Outcome) returns (err: ErrCode)
      modifies this, storage
      ensures StoreResult(State(), storage.Rows(), err) ==
              SetPolicySpec(old(State()), old(storage.Rows()), userId, admin, policy, adminValue, merged, combinedIo,
                            adminIo)
    {
      if policy == "" { return ErrPolicySetFailed; }
      if merged == "" {
        err := DeleteCombinedPolicy(policy, combinedIo);
      } else {
        err := SetCombinedPolicy(policy, merged, combinedIo);
      }
      if admin != "" {
        if adminValue == "" {
          err := DeleteAdminPolicy(admin, policy, adminIo);
        } else {
          err := SetAdminPolicy(admin, policy, adminValue, adminIo);
        }
      }
    }

    method ReplacePolicyByAdminName(user: int, admin: string, newAdmin: string, io: Outcome) returns (err: ErrCode)
      modifies this, storage
      ensures StoreResult(State(), storage.Rows(), err) ==
              ReplaceSpec(old(State()), old(storage.Rows()), user, admin, newAdmin, io)
    {
      if io == Unavailable { return ErrGetStorageRdbFailed; }
      var done := storage.ReplaceAdminPolicy(user, admin, newAdmin, io == Done);
      if !done { return ErrPolicyReplaceFailed; }
      if admin in adminPolicies {
        var items := adminPolicies[admin];
        adminPolicies := adminPolicies - {admin};
        adminPolicies := adminPolicies[newAdmin := items];
      }
      RenameInAdminLists(admin, newAdmin);
      return ErrOk;
    }

    /** The loop of `ReplacePolicyByAdminName` over the index, in any order of its keys. */
    method RenameInAdminLists(admin: string, newAdmin: string)
      modifies this`policyAdmins
      ensures policyAdmins == RenameIndex(old(policyAdmins), admin, newAdmin)
    {
      ghost var before := policyAdmins;
      var todo := policyAdmins.Keys;
      while todo != {}
        invariant todo <= policyAdmins.Keys == before.Keys
        invariant forall p :: p in before ==>
                    policyAdmins[p] == if p in todo then before[p] else RenameKey(before[p], admin, newAdmin)
        decreases |todo|
      {
        var p :| p in todo;
        var values := policyAdmins[p];
        if admin in values {
          var value := values[admin];
          values := values - {admin};
          policyAdmins := policyAdmins[p := values[newAdmin := value]];
        }
        todo := todo - {p};
      }
      assert policyAdmins == RenameIndex(before, admin, newAdmin);
    }
  }
}
