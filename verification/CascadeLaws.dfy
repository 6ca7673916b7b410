/** Whom the removal of a super administrator takes along: what it authorised and what it delegated to. */
module CascadeLaws {
  import opened PolicyModel
  import opened ManagerModel
  import opened PipelineModel
  import opened AdminModel
  import opened LifecycleModel
  import opened LifecycleSafety
  import opened CascadeModel
  import opened Ability
  import opened AdminLaws
  import opened LifecycleLaws

  lemma ListedChild(admins: Admins, name: string, i: nat)
    requires i < |ListOf(admins, DEFAULT_USER_ID)| && ChildUnder(ListOf(admins, DEFAULT_USER_ID)[i], name)
    ensures ListOf(admins, DEFAULT_USER_ID)[i].packageName in Victims(admins, name)
  {
    var e := ListOf(admins, DEFAULT_USER_ID)[i];
    ChildrenAreListed(ListOf(admins, DEFAULT_USER_ID), name, e.packageName);
  }

  /** A completed cascade leaves nobody of the name, and no sub super administrator and no virtual administrator under
      it. */
  lemma NobodyUnder(s: ManagerState, s': ManagerState, r: Roster, r': Roster, dels: seq<(int, string)>, name: string,
                    plugins: Plugins, i: nat)
    requires Cascaded(s, s', r, r', dels, name, plugins, true) && i < |ListOf(r'.admins, DEFAULT_USER_ID)|
    ensures var e := ListOf(r'.admins, DEFAULT_USER_ID)[i];
            && e.packageName != name
            && ((e.adminType != SUB_SUPER_ADMIN && e.adminType != VIRTUAL_ADMIN) || e.parentAdminName != name)
  {
    var e := ListOf(r'.admins, DEFAULT_USER_ID)[i];
    assert e in ListOf(r'.admins, DEFAULT_USER_ID);
    assert !IsChildOf(e, name) && e.packageName !in Victims(r.admins, name);
    assert name in [name] + ChildrenOf(Copies(ListOf(r.admins, DEFAULT_USER_ID)), name);
  }

  /** Whoever was a sub super or virtual administrator under the name is gone, and has only values of policies left that
      their plugins do not save. */
  lemma ChildGoes(s: ManagerState, s': ManagerState, r: Roster, r': Roster, dels: seq<(int, string)>, name: string,
                  plugins: Plugins, i: nat)
    requires Cascaded(s, s', r, r', dels, name, plugins, true)
    requires i < |ListOf(r.admins, DEFAULT_USER_ID)| && ChildUnder(ListOf(r.admins, DEFAULT_USER_ID)[i], name)
    ensures var child := ListOf(r.admins, DEFAULT_USER_ID)[i].packageName;
            && Absent(r'.admins, DEFAULT_USER_ID, child)
            && (UsersCovered(s) ==> forall u :: OnlyUnsavedLeft(s', u, child, plugins))
  {
    ListedChild(r.admins, name, i);
    NobodyIsAbsent(r'.admins, Victims(r.admins, name), name, ListOf(r.admins, DEFAULT_USER_ID)[i].packageName);
  }

  lemma NobodyIsAbsent(admins: Admins, whom: set<string>, name: string, child: string)
    requires NobodyLeft(admins, whom, name) && child in whom
    ensures Absent(admins, DEFAULT_USER_ID, child)
  {
    var list := ListOf(admins, DEFAULT_USER_ID);
    forall i | 0 <= i < |list| ensures list[i].packageName != child { assert list[i] in list; }
  }

  /** An entry that a lookup by the default user finds stands in its list, with type and parent. */
  lemma FoundChild(admins: Admins, child: string, name: string) returns (i: nat)
    requires Safe(admins) && AdminByPkgName(admins, child, DEFAULT_USER_ID).Some?
    requires ChildUnder(AdminByPkgName(admins, child, DEFAULT_USER_ID).value, name)
    ensures i < |ListOf(admins, DEFAULT_USER_ID)| && ListOf(admins, DEFAULT_USER_ID)[i].packageName == child
    ensures ChildUnder(ListOf(admins, DEFAULT_USER_ID)[i], name)
  {
    LookupIs(admins, child, DEFAULT_USER_ID);
    var list, e := ListOf(admins, DEFAULT_USER_ID), AdminByPkgName(admins, child, DEFAULT_USER_ID).value;
    i :| 0 <= i < |list| && CreateAdmin(list[i]) == Some(e);
  }

  /** What a super administrator authorises goes with it: after the removal of the super administrator, complete or by
      its type, the application is no administrator any more. */
  lemma AuthorizedGoes(l: Life, admin: string, bundleName: string, currentUser: int, permitted: bool,
                       permission: Option<seq<string>>, abilityName: string, io: Outcome, s: ManagerState,
                       s': ManagerState, r': Roster, dels: seq<(int, string)>, plugins: Plugins)
    requires Safe(l.roster.admins) && AdminByPkgName(l.roster.admins, bundleName, DEFAULT_USER_ID).None?
    requires var a := AuthorizeSpec(l, admin, bundleName, currentUser, permitted, permission, abilityName, io);
             a.err == LifeOk && Cascaded(s, s', a.life.roster, r', dels, admin, plugins, true)
    ensures Absent(r'.admins, DEFAULT_USER_ID, bundleName)
    ensures UsersCovered(s) ==> forall u :: OnlyUnsavedLeft(s', u, bundleName, plugins)
  {
    var r := AuthorizeSpec(l, admin, bundleName, currentUser, permitted, permission, abilityName, io).life.roster;
    AuthorizeSafe(l, admin, bundleName, currentUser, permitted, permission, abilityName, io);
    AuthorizeLeaves(l, admin, bundleName, currentUser, permitted, permission, abilityName, io);
    var i := FoundChild(r.admins, bundleName, admin);
    ChildGoes(s, s', r, r', dels, admin, plugins, i);
  }

  /** And so does what it delegates policies to under the default user. */
  lemma DelegatedGoes(l: Life, parent: string, bundleName: string, policies: seq<string>, permitted: bool,
                      policiesCheck: LifeErr, bundleAllowed: bool, permission: Option<seq<string>>, io: Outcome,
                      s: ManagerState, s': ManagerState, r': Roster, dels: seq<(int, string)>, plugins: Plugins)
    requires Safe(l.roster.admins) && policies != []
    requires AdminByPkgName(l.roster.admins, bundleName, DEFAULT_USER_ID).None?
    requires var d := DelegateSpec(l, parent, bundleName, policies, DEFAULT_USER_ID, permitted, policiesCheck,
                                   bundleAllowed, permission, io);
             d.err == LifeOk && Cascaded(s, s', d.life.roster, r', dels, parent, plugins, true)
    ensures Absent(r'.admins, DEFAULT_USER_ID, bundleName)
    ensures UsersCovered(s) ==> forall u :: OnlyUnsavedLeft(s', u, bundleName, plugins)
  {
    var r := DelegateSpec(l, parent, bundleName, policies, DEFAULT_USER_ID, permitted, policiesCheck, bundleAllowed,
                          permission, io).life.roster;
    DelegateSafe(l, parent, bundleName, policies, DEFAULT_USER_ID, permitted, policiesCheck, bundleAllowed,
                 permission, io);
    DelegateLeaves(l, parent, bundleName, policies, DEFAULT_USER_ID, permitted, policiesCheck, bundleAllowed,
                   permission, io);
    var i := FoundChild(r.admins, bundleName, parent);
    ChildGoes(s, s', r, r', dels, parent, plugins, i);
  }

  /** But what it delegates policies to for another user stays, with its policies and under a parent that is gone, when
      the user did not know the application before: only the default user is asked for children. */
  lemma DelegatedElsewhereStays(l: Life, parent: string, bundleName: string, policies: seq<string>, u: int,
                                permitted: bool, policiesCheck: LifeErr, bundleAllowed: bool,
                                permission: Option<seq<string>>, io: Outcome, s: ManagerState, s': ManagerState,
                                r': Roster, dels: seq<(int, string)>, plugins: Plugins, ok: bool)
    requires Safe(l.roster.admins) && policies != [] && u != DEFAULT_USER_ID
    requires AdminByPkgName(l.roster.admins, bundleName, u).None?
    requires var d := DelegateSpec(l, parent, bundleName, policies, u, permitted, policiesCheck, bundleAllowed,
                                   permission, io);
             d.err == LifeOk && Cascaded(s, s', d.life.roster, r', dels, parent, plugins, ok)
    ensures var found := AdminByPkgName(r'.admins, bundleName, u);
            && found.Some? && found.value.adminType == VIRTUAL_ADMIN && found.value.parentAdminName == parent
            && found.value.accessiblePolicies == policies
  {
    var r := DelegateSpec(l, parent, bundleName, policies, u, permitted, policiesCheck, bundleAllowed, permission,
                          io).life.roster;
    DelegatedElsewhere(l, parent, bundleName, policies, u, permitted, policiesCheck, bundleAllowed, permission, io);
    CascadeDeletes(s, s', r, r', dels, parent, plugins, ok);
    NotListed(r.admins, u, parent, bundleName);
    StaysFound(r.admins, dels, Victims(r.admins, parent), u, bundleName);
  }

  lemma DelegatedElsewhere(l: Life, parent: string, bundleName: string, policies: seq<string>, u: int, permitted: bool,
                           policiesCheck: LifeErr, bundleAllowed: bool, permission: Option<seq<string>>, io: Outcome)
    requires Safe(l.roster.admins) && policies != [] && u != DEFAULT_USER_ID
    requires AdminByPkgName(l.roster.admins, bundleName, u).None?
    requires DelegateSpec(l, parent, bundleName, policies, u, permitted, policiesCheck, bundleAllowed, permission,
                          io).err == LifeOk
    ensures var admins := DelegateSpec(l, parent, bundleName, policies, u, permitted, policiesCheck, bundleAllowed,
                                       permission, io).life.roster.admins;
            var found := AdminByPkgName(admins, bundleName, u);
            && Safe(admins) && !Shadowed(admins, u, bundleName) && bundleName != parent
            && found.Some? && found.value.adminType == VIRTUAL_ADMIN && found.value.parentAdminName == parent
            && found.value.accessiblePolicies == policies
  {
    SafeIsKnown(l.roster.admins, u);
    LookupFinds(l.roster.admins, bundleName, u);
    DelegateSucceedsIff(l, parent, bundleName, policies, u, permitted, policiesCheck, bundleAllowed, permission, io);
    DelegateLeaves(l, parent, bundleName, policies, u, permitted, policiesCheck, bundleAllowed, permission, io);
    DelegateSafe(l, parent, bundleName, policies, u, permitted, policiesCheck, bundleAllowed, permission, io);
  }

  lemma CascadeDeletes(s: ManagerState, s': ManagerState, r: Roster, r': Roster, dels: seq<(int, string)>,
                       name: string, plugins: Plugins, ok: bool)
    requires Cascaded(s, s', r, r', dels, name, plugins, ok)
    ensures r'.admins == DeleteAll(r.admins, dels) && NamesIn(dels, Victims(r.admins, name))
  {
  }

  /** A name that nobody who works across accounts has is no child. */
  lemma NotListed(admins: Admins, u: int, parent: string, name: string)
    requires u != DEFAULT_USER_ID && !Shadowed(admins, u, name) && name != parent
    ensures name !in Victims(admins, parent)
  {
    var shared := ListOf(admins, DEFAULT_USER_ID);
    ChildrenAreListed(shared, parent, name);
    NobodyAcross(admins, u, name);
  }

  /** Deletions of others leave it found as it was. */
  lemma StaysFound(admins: Admins, dels: seq<(int, string)>, whom: set<string>, u: int, name: string)
    requires Safe(admins) && NamesIn(dels, whom) && name !in whom
    requires u != DEFAULT_USER_ID && !Shadowed(admins, u, name) && AdminByPkgName(admins, name, u).Some?
    ensures AdminByPkgName(DeleteAll(admins, dels), name, u) == AdminByPkgName(admins, name, u)
  {
    var admins' := DeleteAll(admins, dels);
    var list, list' := ListOf(admins, u), ListOf(admins', u);
    DeleteAllSafe(admins, dels);
    SafeIsKnown(admins, u);
    SafeIsKnown(admins', u);
    LookupFinds(admins, name, u);
    var k: nat :| FirstNamed(list, name, k);
    OthersKept(admins, dels, whom, u);
    FilterIs(list, whom, list[k]);
    FilterIs(list', whom, list[k]);
    var j :| 0 <= j < |list'| && list'[j] == list[k];
    assert ListSafe(list', u);
    assert FirstNamed(list', name, j);
    SublistOf(admins, dels, DEFAULT_USER_ID);
    StillNotShadowed(admins, admins', u, name);
    LookupFinds(admins', name, u);
  }

  lemma StillNotShadowed(admins: Admins, admins': Admins, u: int, name: string)
    requires !Shadowed(admins, u, name) && u != DEFAULT_USER_ID
    requires forall e :: e in ListOf(admins', DEFAULT_USER_ID) ==> e in ListOf(admins, DEFAULT_USER_ID)
    ensures !Shadowed(admins', u, name)
  {
    var now := ListOf(admins', DEFAULT_USER_ID);
    NobodyAcross(admins, u, name);
    forall k: nat ensures !FirstAcross(now, name, k) {
      if k < |now| { assert now[k] in now; }
    }
  }

  /** Disabling a super administrator by its type does the same to every child. */
  lemma DisabledChildGoes(s: ManagerState, s': ManagerState, l: Life, l': Life, dels: seq<(int, string)>,
                          admin: AdminInfo, userId: int, checksFlag: bool, plugins: Plugins, i: nat)
    requires Removal(s, s', l, l', dels, admin, userId, true, checksFlag, plugins) && admin.adminType == ENT
    requires i < |ListOf(l.roster.admins, DEFAULT_USER_ID)|
    requires ChildUnder(ListOf(l.roster.admins, DEFAULT_USER_ID)[i], admin.packageName)
    ensures var child := ListOf(l.roster.admins, DEFAULT_USER_ID)[i].packageName;
            && Absent(l'.roster.admins, DEFAULT_USER_ID, child)
            && Absent(l'.roster.admins, DEFAULT_USER_ID, admin.packageName)
            && (UsersCovered(s) ==> forall u :: OnlyUnsavedLeft(s', u, child, plugins))
  {
    ListedChild(l.roster.admins, admin.packageName, i);
    NobodyIsAbsent(l'.roster.admins, Victims(l.roster.admins, admin.packageName), admin.packageName,
      ListOf(l.roster.admins, DEFAULT_USER_ID)[i].packageName);
  }

  /** Exactly the deleted entries are gone. */
  lemma {:induction false} LeftIs(admins: Admins, dels: seq<(int, string)>, u: int, e: AdminInfo)
    ensures e in ListOf(DeleteAll(admins, dels), u) <==> e in ListOf(admins, u) && (u, e.packageName) !in dels
  {
    if dels != [] {
      var init, last := dels[..|dels| - 1], dels[|dels| - 1];
      LeftIs(admins, init, u, e);
      assert dels == init + [last];
      var before := DeleteAll(admins, init);
      if last.0 == u { WithoutIs(ListOf(before, u), last.1); }
    }
  }

  /** A removal that fails can be asked for again: the administrator stands where it stood, under the default user when
      it works across accounts, and, with a super administrator, unless it is listed as its own child. */
  lemma FailedRemovalCanBeRepeated(s: ManagerState, s': ManagerState, l: Life, l': Life, dels: seq<(int, string)>,
                                   admin: AdminInfo, userId: int, checksFlag: bool, plugins: Plugins, i: nat)
    requires Removal(s, s', l, l', dels, admin, userId, false, checksFlag, plugins)
    requires var u := if WorksAcross(admin.adminType) then DEFAULT_USER_ID else userId;
             && i < |ListOf(l.roster.admins, u)| && ListOf(l.roster.admins, u)[i].packageName == admin.packageName
    requires admin.adminType == ENT ==>
               !NamedUnder(ListOf(l.roster.admins, DEFAULT_USER_ID), admin.packageName, admin.packageName)
    ensures var u := if WorksAcross(admin.adminType) then DEFAULT_USER_ID else userId;
            ListOf(l.roster.admins, u)[i] in ListOf(l'.roster.admins, u)
  {
    var u := if WorksAcross(admin.adminType) then DEFAULT_USER_ID else userId;
    ChildrenAreListed(ListOf(l.roster.admins, DEFAULT_USER_ID), admin.packageName, admin.packageName);
    LeftIs(l.roster.admins, dels, u, ListOf(l.roster.admins, u)[i]);
    if admin.adminType == ENT {
      LastKept(ChildrenOf(Copies(ListOf(l.roster.admins, DEFAULT_USER_ID)), admin.packageName),
               admin.packageName, dels);
    }
  }

  lemma LastKept(children: seq<string>, name: string, dels: seq<(int, string)>)
    requires LastStays(children + [name], dels) && name !in children
    ensures (DEFAULT_USER_ID, name) !in dels
  {
    assert (children + [name])[..|children + [name]| - 1] == children;
  }

  /** Whether a removal succeeds or fails half-way, nobody has lost an entry under a user and left a policy there that
      is saved. */
  lemma NobodyLeavesPolicies(s: ManagerState, s': ManagerState, l: Life, l': Life, dels: seq<(int, string)>,
                             admin: AdminInfo, userId: int, done: bool, checksFlag: bool, plugins: Plugins, u: int,
                             i: nat)
    requires Removal(s, s', l, l', dels, admin, userId, done, checksFlag, plugins)
    requires i < |ListOf(l.roster.admins, u)| && ListOf(l.roster.admins, u)[i] !in ListOf(l'.roster.admins, u)
    ensures OnlyUnsavedLeft(s', u, ListOf(l.roster.admins, u)[i].packageName, plugins)
  {
    LeftIs(l.roster.admins, dels, u, ListOf(l.roster.admins, u)[i]);
  }

  /** Nobody else goes: a removal takes only the administrator and, with a super administrator, who is a sub super or
      virtual administrator under it. */
  lemma OnlyTheFamilyGoes(s: ManagerState, s': ManagerState, l: Life, l': Life, dels: seq<(int, string)>,
                          admin: AdminInfo, userId: int, done: bool, checksFlag: bool, plugins: Plugins, u: int, i: nat)
    requires Removal(s, s', l, l', dels, admin, userId, done, checksFlag, plugins)
    requires i < |ListOf(l.roster.admins, u)| && ListOf(l.roster.admins, u)[i] !in ListOf(l'.roster.admins, u)
    ensures var name := ListOf(l.roster.admins, u)[i].packageName;
            || name == admin.packageName
            || (admin.adminType == ENT && NamedUnder(ListOf(l.roster.admins, DEFAULT_USER_ID), name, admin.packageName))
  {
    var e := ListOf(l.roster.admins, u)[i];
    OthersKept(l.roster.admins, dels, Whom(l.roster.admins, admin), u);
    FilterIs(ListOf(l.roster.admins, u), Whom(l.roster.admins, admin), e);
    FilterIs(ListOf(l'.roster.admins, u), Whom(l.roster.admins, admin), e);
    ChildrenAreListed(ListOf(l.roster.admins, DEFAULT_USER_ID), admin.packageName, e.packageName);
  }

  lemma {:induction false} FilterIs(list: seq<AdminInfo>, whom: set<string>, e: AdminInfo)
    ensures e in FilterOut(list, whom) <==> e in list && e.packageName !in whom
  {
    if list != [] {
      FilterIs(list[..|list| - 1], whom, e);
      assert list == list[..|list| - 1] + [list[|list| - 1]];
    }
  }
}
