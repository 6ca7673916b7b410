/** The policy manager: one manager per user, created the first time the user is named. */
module PolicyManagers {
  import opened PolicyModel
  import opened PolicyStore
  import opened ManagerModel

  class PolicyManager {
    const storage: DevicePoliciesStorageRdb
    var policyMgrMap: map<int, UserPolicyManager>
    var defaultPolicyMgr: UserPolicyManager?

    ghost function Managers(): set<UserPolicyManager>
      reads this
    {
      (set u | u in policyMgrMap :: policyMgrMap[u]) + (if defaultPolicyMgr == null then {} else {defaultPolicyMgr})
    }

    ghost function Repr(): set<object>
      reads this
    {
      {this, storage} + Managers()
    }

    ghost predicate Valid()
      reads this
    {
      && (defaultPolicyMgr != null ==>
          defaultPolicyMgr.userId == DEFAULT_USER_ID && defaultPolicyMgr.storage == storage)
      && (forall u :: u in policyMgrMap ==>
            u != DEFAULT_USER_ID && policyMgrMap[u].userId == u && policyMgrMap[u].storage == storage)
    }

    ghost function State(): ManagerState
      reads this, storage, Managers()
    {
      var others := map u | u in policyMgrMap :: policyMgrMap[u].State();
      ManagerState(storage.Rows(),
                   if defaultPolicyMgr == null then others else others[DEFAULT_USER_ID := defaultPolicyMgr.State()])
    }

    constructor (storage: DevicePoliciesStorageRdb)
      ensures Valid() && this.storage == storage && Managers() == {}
      ensures State() == ManagerState(storage.Rows(), map[])
    {
      this.storage := storage;
      policyMgrMap, defaultPolicyMgr := map[], null;
    }

    ghost predicate Manages(userId: int, manager: UserPolicyManager)
      reads this
    {
      && manager.userId == userId && manager.storage == storage
      && if userId == DEFAULT_USER_ID then manager == defaultPolicyMgr
         else userId in policyMgrMap && policyMgrMap[userId] == manager
    }

    /** The state after only `manager` changed: no two users share a manager. */
    lemma OneManagerChanged(before: map<int, Cache>, userId: int, manager: UserPolicyManager)
      requires Valid() && Manages(userId, manager)
      requires before.Keys == State().caches.Keys
      requires forall u :: u in policyMgrMap && policyMgrMap[u] != manager ==> before[u] == policyMgrMap[u].State()
      requires defaultPolicyMgr != null && defaultPolicyMgr != manager ==>
               before[DEFAULT_USER_ID] == defaultPolicyMgr.State()
      ensures State() == ManagerState(storage.Rows(), before[userId := manager.State()])
    {
      var after := before[userId := manager.State()];
      forall u | u in after ensures u in State().caches && State().caches[u] == after[u] { }
    }

    method SetDefaultManager(manager: UserPolicyManager)
      requires Valid() && manager.userId == DEFAULT_USER_ID && manager.storage == storage
      modifies this`defaultPolicyMgr
      ensures Valid() && Manages(DEFAULT_USER_ID, manager) && Managers() <= old(Managers()) + {manager}
      ensures State() == ManagerState(old(State()).tables, old(State()).caches[DEFAULT_USER_ID := manager.State()])
    {
      defaultPolicyMgr := manager;
    }

    method AddManager(userId: int, manager: UserPolicyManager)
      requires Valid() && userId != DEFAULT_USER_ID && manager.userId == userId && manager.storage == storage
      requires userId !in policyMgrMap
      modifies this`policyMgrMap
      ensures Valid() && Manages(userId, manager) && Managers() <= old(Managers()) + {manager}
      ensures State() == ManagerState(old(State()).tables, old(State()).caches[userId := manager.State()])
    {
      policyMgrMap := policyMgrMap[userId := manager];
    }

    method LoadManager(userId: int, load: LoadIo) returns (manager: UserPolicyManager)
      ensures fresh(manager) && manager.userId == userId && manager.storage == storage
      ensures manager.State() == LoadCache(storage.Rows(), userId, load)
    {
      manager := new UserPolicyManager(userId, storage);
      manager.Init(load.admin, load.combined);
    }

    method GetUserPolicyMgr(userId: int, load: LoadIo) returns (manager: UserPolicyManager)
      requires Valid()
      modifies this
      ensures Valid() && fresh(Managers() - old(Managers()))
      ensures State() == Loaded(old(State()), userId, load)
      ensures Manages(userId, manager) && manager in Managers() && manager.State() == State().caches[userId]
    {
      if userId == DEFAULT_USER_ID {
        if defaultPolicyMgr == null {
          var created := LoadManager(userId, load);
          SetDefaultManager(created);
        }
        return defaultPolicyMgr;
      }
      if userId in policyMgrMap {
        return policyMgrMap[userId];
      }
      manager := LoadManager(userId, load);
      AddManager(userId, manager);
    }

    method Init(userIds: seq<int>, load: seq<LoadIo>)
      requires Valid() && |userIds| == |load|
      modifies this
      ensures Valid() && fresh(Managers() - old(Managers()))
      ensures State() == InitUsers(old(State()), userIds, load)
    {
      var i := 0;
      ghost var before := State();
      while i < |userIds|
        invariant 0 <= i <= |userIds|
        invariant Valid() && fresh(Managers() - old(Managers()))
        invariant State() == InitUsers(before, userIds[..i], load[..i])
      {
        assert userIds[..i + 1][..i] == userIds[..i] && load[..i + 1][..i] == load[..i];
        InitOne(userIds[i], load[i]);
        i := i + 1;
      }
      assert userIds[..i] == userIds && load[..i] == load;
    }

    /** One round of `Init`; `insert` keeps an existing manager of a user other than the default one. */
    method InitOne(userId: int, load: LoadIo)
      requires Valid()
      modifies this
      ensures Valid() && fresh(Managers() - old(Managers()))
      ensures var s := old(State());
              State() == if userId == DEFAULT_USER_ID || userId !in s.caches
                         then s.(caches := s.caches[userId := LoadCache(s.tables, userId, load)]) else s
    {
      var created := LoadManager(userId, load);
      if userId == DEFAULT_USER_ID {
        SetDefaultManager(created);
      } else if userId !in policyMgrMap {
        AddManager(userId, created);
      }
    }

    method GetPolicy(admin: string, policy: string, userId: int, load: LoadIo) returns (value: Option<string>)
      requires Valid()
      modifies this
      ensures Valid() && fresh(Managers() - old(Managers()))
      ensures State() == Loaded(old(State()), userId, load)
      ensures value == ReadPolicy(State().caches[userId], admin, policy)
    {
      var manager := GetUserPolicyMgr(userId, load);
      value := manager.GetPolicy(admin, policy);
    }

    method GetAdminByPolicyName(policy: string, userId: int, load: LoadIo) returns (err: ErrCode, values: Items)
      requires Valid()
      modifies this
      ensures Valid() && fresh(Managers() - old(Managers()))
      ensures State() == Loaded(old(State()), userId, load)
      ensures err == ErrOk || err == ErrPolicyNotFound
      ensures ReadAdmins(State().caches[userId], policy) == if err == ErrOk then Some(values) else None
      ensures err != ErrOk ==> values == map[]
    {
      var manager := GetUserPolicyMgr(userId, load);
      err, values := manager.GetAdminByPolicyName(policy);
    }

    method GetAllPolicyByAdmin(admin: string, userId: int, load: LoadIo) returns (err: ErrCode, values: Items)
      requires Valid()
      modifies this
      ensures Valid() && fresh(Managers() - old(Managers()))
      ensures State() == Loaded(old(State()), userId, load)
      ensures err == ErrOk || err == ErrPolicyNotFind
      ensures ReadAll(State().caches[userId], admin) == if err == ErrOk then Some(values) else None
      ensures err != ErrOk ==> values == map[]
    {
      var manager := GetUserPolicyMgr(userId, load);
      err, values := manager.GetAllPolicyByAdmin(admin);
    }

    method SetPolicy(admin: string, policy: string, value: string, merged: string, userId: int,
                     load: LoadIo, combinedIo: Outcome, adminIo: Outcome) returns (err: ErrCode)
      requires Valid()
      modifies Repr()
      ensures Valid() && fresh(Managers() - old(Managers()))
      ensures ManagerResult(State(), err) ==
              SetPolicyAll(old(State()), userId, admin, policy, value, merged, load, combinedIo, adminIo)
    {
      var manager := GetUserPolicyMgr(userId, load);
      ghost var before := State().caches;
      err := manager.SetPolicy(admin, policy, value, merged, combinedIo, adminIo);
      OneManagerChanged(before, userId, manager);
    }

    method ReplaceAllPolicy(userId: int, admin: string, newAdmin: string, load: LoadIo, io: Outcome)
      returns (err: ErrCode)
      requires Valid()
      modifies Repr()
      ensures Valid() && fresh(Managers() - old(Managers()))
      ensures ManagerResult(State(), err) == ReplaceAllSpec(old(State()), userId, admin, newAdmin, load, io)
    {
      var manager := GetUserPolicyMgr(userId, load);
      ghost var before := State().caches;
      err := manager.ReplacePolicyByAdminName(userId, admin, newAdmin, io);
      OneManagerChanged(before, userId, manager);
    }

    /** The managed users other than the default one, each once. */
    method GetPolicyUserIds() returns (userIds: seq<int>)
      requires Valid()
      ensures forall u :: u in userIds <==> u in State().caches && u != DEFAULT_USER_ID
      ensures forall i, j :: 0 <= i < j < |userIds| ==> userIds[i] != userIds[j]
    {
      userIds := ListUsers(policyMgrMap.Keys);
      assert PolicyUserIds(State()) == policyMgrMap.Keys;
    }
  }

  /** The keys of the manager map, pushed one by one. */
  method ListUsers(users: set<int>) returns (userIds: seq<int>)
    ensures forall u :: u in userIds <==> u in users
    ensures forall i, j :: 0 <= i < j < |userIds| ==> userIds[i] != userIds[j]
  {
    userIds := [];
    var todo := users;
    while todo != {}
      invariant todo <= users
      invariant forall u :: u in userIds <==> u in users - todo
      invariant forall i, j :: 0 <= i < j < |userIds| ==> userIds[i] != userIds[j]
      decreases |todo|
    {
      SomeUser(todo);
      var u :| u in todo;
      userIds := userIds + [u];
      todo := todo - {u};
    }
  }

  /** Service start-up: the users that own admin-policy rows are loaded. */
  method InitAllPolices(storage: DevicePoliciesStorageRdb, queryOk: bool, load: LoadIo) returns (manager: PolicyManager)
    ensures fresh(manager) && manager.Valid() && manager.storage == storage && fresh(manager.Managers())
    ensures manager.State().tables == storage.Rows()
    ensures UsersCovered(manager.State()) <==>
            queryOk || forall r :: r in storage.adminRows ==> r.userId == DEFAULT_USER_ID
    ensures SameStore(ManagerState(storage.Rows(), map[]), manager.State(), u => load)
  {
    manager := new PolicyManager(storage);
    var _, userIds := storage.QueryAllUserId(queryOk);
    var loads := seq(|userIds|, i => load);
    manager.Init(userIds, loads);
    StartUpCoversIff(storage.Rows(), queryOk, userIds, loads);
    InitUsersLoaded(ManagerState(storage.Rows(), map[]), userIds, loads);
    ghost var same: Loads := u => load;
    assert loads == seq(|userIds|, i requires 0 <= i < |userIds| => same(userIds[i]));
    EagerStart(storage.Rows(), userIds, same);
  }
}
