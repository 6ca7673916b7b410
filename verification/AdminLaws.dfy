/** What the calls of the administrator manager leave, said of the entries themselves: who is found by a lookup, who the
    children are, which events are subscribed, and that what is saved is what is found. */
module AdminLaws {
  import opened PolicyModel
  import opened ManagerModel
  import opened AdminModel
  import opened RosterSync
  import opened LifecycleSafety

  // ----- Events -----

  /** No event of the list that stands behind the first `n` is in it twice. */
  ghost predicate NewOnce(list: seq<int>, n: nat) {
    forall i, j :: 0 <= i < j < |list| && n <= j ==> list[i] != list[j]
  }

  /** The old events in front, then the new ones, each once. */
  ghost predicate Added(was: seq<int>, events: seq<int>, now: seq<int>) {
    was <= now && NewOnce(now, |was|) && forall x :: x in now <==> x in was || x in events
  }

  /** Each event as often as before, those withdrawn not at all. */
  ghost predicate Reduced(was: seq<int>, events: seq<int>, now: seq<int>) {
    forall x :: multiset(now)[x] == if x in events then 0 else multiset(was)[x]
  }

  lemma {:induction false} SubscribedIs(now: seq<int>, events: seq<int>)
    ensures Added(now, events, Subscribed(now, events))
  {
    if events != [] {
      var init, last := events[..|events| - 1], events[|events| - 1];
      SubscribedIs(now, init);
      assert events == init + [last];
      assert forall x :: x in events <==> x in init || x == last;
    }
  }

  lemma {:induction false} UnsubscribedIs(now: seq<int>, events: seq<int>)
    ensures Reduced(now, events, Unsubscribed(now, events))
  {
    if now != [] {
      var init, last := now[..|now| - 1], now[|now| - 1];
      UnsubscribedIs(init, events);
      assert now == init + [last];
    }
  }

  /** The order stays: what is left of two lists is what is left of the one and then of the other. */
  lemma {:induction false} UnsubscribedInOrder(now: seq<int>, more: seq<int>, events: seq<int>)
    ensures Unsubscribed(now + more, events) == Unsubscribed(now, events) + Unsubscribed(more, events)
  {
    if more == [] {
      assert now + more == now;
    } else {
      var init, last := more[..|more| - 1], more[|more| - 1];
      UnsubscribedInOrder(now, init, events);
      assert (now + more)[..|now + more| - 1] == now + init && (now + more)[|now + more| - 1] == last;
    }
  }

  /** An entry and what it becomes, of this package or not. */
  ghost predicate OnlyEventsOf(list: seq<AdminInfo>, list': seq<AdminInfo>, p: string, events: seq<int>) {
    && |list'| == |list|
    && forall i :: 0 <= i < |list| ==>
         list'[i] == if list[i].packageName == p then list[i].(managedEvents := events) else list[i]
  }

  lemma EventsLeave(r: Roster, u: int, p: string, was: seq<int>, now: seq<int>)
    ensures var s := SetEventsSpec(r, u, p, was, now, Done);
            && s.err == AdminOk && OnlyEventsOf(ListOf(r.admins, u), ListOf(s.roster.admins, u), p, now)
            && forall v :: v != u ==> ListOf(s.roster.admins, v) == ListOf(r.admins, v)
  {
  }

  /** A completed subscription: the administrator that was looked up had some events; now every entry of the package
      under the user has these and the new ones, each new one once, and nothing else of the roster changes. */
  lemma SubscribeLeaves(r: Roster, u: int, p: string, events: seq<int>)
    requires AdminByPkgName(r.admins, p, u).Some?
    ensures var was, s := AdminByPkgName(r.admins, p, u).value.managedEvents,
                          SaveSubscribeEventsSpec(r, u, p, events, Done);
            exists now ::
              && Added(was, events, now)
              && s.err == AdminOk && OnlyEventsOf(ListOf(r.admins, u), ListOf(s.roster.admins, u), p, now)
              && forall v :: v != u ==> ListOf(s.roster.admins, v) == ListOf(r.admins, v)
  {
    var was := AdminByPkgName(r.admins, p, u).value.managedEvents;
    SubscribedIs(was, events);
    EventsLeave(r, u, p, was, Subscribed(was, events));
  }

  lemma UnsubscribeLeaves(r: Roster, u: int, p: string, events: seq<int>)
    requires AdminByPkgName(r.admins, p, u).Some?
    ensures var was, s := AdminByPkgName(r.admins, p, u).value.managedEvents,
                          RemoveSubscribeEventsSpec(r, u, p, events, Done);
            exists now ::
              && Reduced(was, events, now)
              && s.err == AdminOk && OnlyEventsOf(ListOf(r.admins, u), ListOf(s.roster.admins, u), p, now)
              && forall v :: v != u ==> ListOf(s.roster.admins, v) == ListOf(r.admins, v)
  {
    var was := AdminByPkgName(r.admins, p, u).value.managedEvents;
    var now := Unsubscribed(was, events);
    UnsubscribedIs(was, events);
    EventsLeave(r, u, p, was, now);
  }

  /** What a row has of the events is what the entry has, when the call could be checked to be written whole. */
  lemma SubscribedRows(r: Roster, u: int, p: string, events: seq<int>, i: nat)
    requires InSync(r) && AdminByPkgName(r.admins, p, u).Some? && Faithful(r, Subscribe(u, p, events))
    requires i < |ListOf(r.admins, u)| && ListOf(r.admins, u)[i].packageName == p
    ensures var was, r' := AdminByPkgName(r.admins, p, u).value.managedEvents,
                           RosterSync.Step(r, Subscribe(u, p, events), Done);
            && i < |RowsOf(r'.rows, u)| && RowsOf(r'.rows, u)[i].packageName == p
            && var written := ReadList(RowsOf(r'.rows, u)[i].managedEvents);
               Added(was, events, written)
  {
    var r' := RosterSync.Step(r, Subscribe(u, p, events), Done);
    var was := AdminByPkgName(r.admins, p, u).value.managedEvents;
    StepSyncIff(r, Subscribe(u, p, events));
    SubscribedIs(was, events);
    EventsLeave(r, u, p, was, Subscribed(was, events));
    assert ListInSync(ListOf(r'.admins, u), RowsOf(r'.rows, u));
    assert ListOf(r'.admins, u)[i] == LoadOne(RowsOf(r'.rows, u)[i]);
  }

  // ----- Lookups -----

  /** The types that may act for other users. */
  predicate WorksAcross(t: AdminType) {
    t == NORMAL || t == ENT || t == SUB_SUPER_ADMIN || t == VIRTUAL_ADMIN
  }

  /** The first of the name. */
  ghost predicate FirstNamed(list: seq<AdminInfo>, p: string, k: nat) {
    k < |list| && list[k].packageName == p && forall j :: 0 <= j < k ==> list[j].packageName != p
  }

  /** The first of the name that works across accounts. */
  ghost predicate FirstAcross(list: seq<AdminInfo>, p: string, k: nat) {
    && k < |list| && list[k].packageName == p && WorksAcross(list[k].adminType)
    && forall j :: 0 <= j < k ==> !(list[j].packageName == p && WorksAcross(list[j].adminType))
  }

  lemma {:induction false} FindNamedFirst(list: seq<AdminInfo>, p: string)
    ensures FindNamed(list, p).None? ==> forall k: nat :: !FirstNamed(list, p, k)
    ensures FindNamed(list, p).None? ==> forall k :: 0 <= k < |list| ==> list[k].packageName != p
    ensures FindNamed(list, p).Some? ==> exists k: nat :: FirstNamed(list, p, k) && list[k] == FindNamed(list, p).value
  {
    if list != [] && list[0].packageName != p {
      FindNamedFirst(list[1..], p);
      if FindNamed(list, p).Some? {
        var k: nat :| FirstNamed(list[1..], p, k) && list[1..][k] == FindNamed(list, p).value;
        assert list[1..][k] == list[k + 1];
        assert forall j :: 0 < j < k + 1 ==> list[j] == list[1..][j - 1];
        assert FirstNamed(list, p, k + 1);
      } else {
        assert forall j :: 0 < j < |list| ==> list[j] == list[1..][j - 1];
      }
    } else if list != [] {
      assert FirstNamed(list, p, 0);
    }
  }

  lemma {:induction false} FindAcrossFirst(list: seq<AdminInfo>, p: string)
    ensures FindAcross(list, p).None? ==>
              forall k :: 0 <= k < |list| ==> !(list[k].packageName == p && WorksAcross(list[k].adminType))
    ensures FindAcross(list, p).Some? ==>
            exists k: nat :: FirstAcross(list, p, k) && list[k] == FindAcross(list, p).value
  {
    if list != [] && !(list[0].packageName == p && WorksAcross(list[0].adminType)) {
      FindAcrossFirst(list[1..], p);
      if FindAcross(list, p).Some? {
        var k: nat :| FirstAcross(list[1..], p, k) && list[1..][k] == FindAcross(list, p).value;
        assert list[1..][k] == list[k + 1];
        assert forall j :: 0 < j < k + 1 ==> list[j] == list[1..][j - 1];
        assert FirstAcross(list, p, k + 1);
      } else {
        assert forall j :: 0 < j < |list| ==> list[j] == list[1..][j - 1];
      }
    } else if list != [] {
      assert FirstAcross(list, p, 0);
    }
  }

  /** The copy handed out: the entry, with the fixed policies when it is a BYOD one. */
  function Copy(e: AdminInfo): AdminInfo {
    if e.adminType == BYOD then e.(accessiblePolicies := BYOD_POLICIES) else e
  }

  /** A user sees the first administrator of the name that works across accounts under the default user; when there is
      none, or the user is the default one, the first of the name of its own; otherwise nobody. */
  lemma LookupFinds(admins: Admins, p: string, u: int)
    requires AllKnown(ListOf(admins, u)) && AllKnown(ListOf(admins, DEFAULT_USER_ID))
    ensures var found, own, shared := AdminByPkgName(admins, p, u), ListOf(admins, u), ListOf(admins, DEFAULT_USER_ID);
            && (u != DEFAULT_USER_ID ==> forall k: nat :: FirstAcross(shared, p, k) ==> found == Some(Copy(shared[k])))
            && ((u == DEFAULT_USER_ID || forall k: nat :: !FirstAcross(shared, p, k)) ==>
                  && (forall k: nat :: FirstNamed(own, p, k) ==> found == Some(Copy(own[k])))
                  && ((forall k: nat :: !FirstNamed(own, p, k)) ==> found == None))
  {
    var own, shared := ListOf(admins, u), ListOf(admins, DEFAULT_USER_ID);
    CopiesKept(own);
    CopiesKept(shared);
    CopyFirst(own, p);
    CopyFirst(shared, p);
    FindNamedFirst(Copies(own), p);
    FindAcrossFirst(Copies(shared), p);
  }

  lemma CopyFirst(list: seq<AdminInfo>, p: string)
    requires AllKnown(list)
    ensures |Copies(list)| == |list| && forall k :: 0 <= k < |list| ==> Copies(list)[k] == Copy(list[k])
    ensures forall k: nat :: FirstNamed(list, p, k) <==> FirstNamed(Copies(list), p, k)
    ensures forall k: nat :: FirstAcross(list, p, k) <==> FirstAcross(Copies(list), p, k)
  {
    CopiesKept(list);
    var copies := Copies(list);
    forall k | 0 <= k < |list| ensures copies[k] == Copy(list[k]) { assert CreateAdmin(list[k]) == Some(copies[k]); }
    forall k: nat ensures FirstNamed(list, p, k) <==> FirstNamed(copies, p, k) {
      assert forall j :: 0 <= j < |list| ==> copies[j].packageName == list[j].packageName;
    }
    forall k: nat ensures FirstAcross(list, p, k) <==> FirstAcross(copies, p, k) {
      assert forall j :: 0 <= j < |list| ==> copies[j].packageName == list[j].packageName &&
                                             copies[j].adminType == list[j].adminType;
    }
  }

  // ----- Children and counts -----

  /** A sub super administrator or a virtual one, under this parent. */
  predicate ChildUnder(e: AdminInfo, parent: string) {
    (e.adminType == SUB_SUPER_ADMIN || e.adminType == VIRTUAL_ADMIN) && e.parentAdminName == parent
  }

  predicate NamedUnder(list: seq<AdminInfo>, name: string, parent: string) {
    exists k :: 0 <= k < |list| && list[k].packageName == name && ChildUnder(list[k], parent)
  }

  /** The names listed as children are exactly those of the sub super and virtual administrators under the parent. */
  lemma {:induction false} ChildrenAreListed(list: seq<AdminInfo>, parent: string, child: string)
    ensures child in ChildrenOf(Copies(list), parent) <==> NamedUnder(list, child, parent)
  {
    if list != [] {
      var init, last := list[..|list| - 1], list[|list| - 1];
      ChildrenAreListed(init, parent, child);
      match CreateAdmin(last) {
        case None =>
        case Some(copy) => assert (Copies(init) + [copy])[..|Copies(init)|] == Copies(init);
      }
      if i :| 0 <= i < |init| && init[i].packageName == child && ChildUnder(init[i], parent) {
        assert list[i].packageName == child && ChildUnder(list[i], parent);
      }
      if ChildUnder(last, parent) && last.packageName == child { assert list[|list| - 1] == last; }
    }
  }

  /** The renaming of a parent: exactly its children move. */
  lemma ParentMoves(admins: Admins, u: int, parent: string, newName: string)
    ensures var admins' := RenameParentsByUser(admins, u, parent, newName);
            && |ListOf(admins', u)| == |ListOf(admins, u)|
            && (forall i :: 0 <= i < |ListOf(admins, u)| ==>
                  var e := ListOf(admins, u)[i];
                  ListOf(admins', u)[i] == if ChildUnder(e, parent) then e.(parentAdminName := newName) else e)
            && forall v :: v != u ==> ListOf(admins', v) == ListOf(admins, v)
  {
  }

  function DevicePlaces(list: seq<AdminInfo>): set<int> {
    set i | 0 <= i < |list| && (list[i].adminType == ENT || list[i].adminType == NORMAL)
  }

  lemma DevicePlacesNext(list: seq<AdminInfo>, e: AdminInfo)
    ensures |DevicePlaces(list + [e])| ==
            |DevicePlaces(list)| + if e.adminType == ENT || e.adminType == NORMAL then 1 else 0
  {
    var more: set<int> := if e.adminType == ENT || e.adminType == NORMAL then {|list|} else {};
    assert DevicePlaces(list + [e]) == DevicePlaces(list) + more;
  }

  /** The count is the number of super and device administrators. */
  lemma {:induction false} CountIs(list: seq<AdminInfo>)
    ensures CountDeviceAdmins(list) == |DevicePlaces(list)|
  {
    if list == [] {
      assert DevicePlaces(list) == {};
    } else {
      var n := |list| - 1;
      CountIs(list[..n]);
      DevicePlacesNext(list[..n], list[n]);
      assert list == list[..n] + [list[n]];
    }
  }

  // ----- Saving -----

  /** Both lists a lookup looks at have known types. */
  ghost predicate Known(admins: Admins, u: int) {
    AllKnown(ListOf(admins, u)) && AllKnown(ListOf(admins, DEFAULT_USER_ID))
  }

  /** What a lookup shows of an administrator that was saved. */
  predicate Shows(e: AdminInfo, item: AdminInfo) {
    && e.packageName == item.packageName && e.className == item.className && e.entName == item.entName
    && e.entDesc == item.entDesc && e.permission == item.permission && e.runningMode == item.runningMode
    && (e.adminType != BYOD ==> e.accessiblePolicies == item.accessiblePolicies)
  }

  /** The rest of an administrator. */
  predicate SameKind(e: AdminInfo, item: AdminInfo) {
    && e.adminType == item.adminType && e.isDebug == item.isDebug && e.parentAdminName == item.parentAdminName
    && e.enableSource == item.enableSource && e.managedEvents == item.managedEvents
  }

  /** The user sees an administrator of the default user by this name. */
  ghost predicate Shadowed(admins: Admins, u: int, p: string) {
    u != DEFAULT_USER_ID && exists k: nat :: FirstAcross(ListOf(admins, DEFAULT_USER_ID), p, k)
  }

  /** Otherwise nobody of the name works across accounts there. */
  lemma NobodyAcross(admins: Admins, u: int, p: string)
    requires u != DEFAULT_USER_ID && !Shadowed(admins, u, p)
    ensures forall e :: e in ListOf(admins, DEFAULT_USER_ID) ==> !(e.packageName == p && WorksAcross(e.adminType))
  {
    FindAcrossFirst(ListOf(admins, DEFAULT_USER_ID), p);
  }

  lemma FirstOfNamed(list: seq<AdminInfo>, p: string, i: nat) returns (k: nat)
    requires i < |list| && list[i].packageName == p
    ensures k <= i && FirstNamed(list, p, k)
  {
    k := 0;
    while list[k].packageName != p
      invariant k <= i && forall j :: 0 <= j < k ==> list[j].packageName != p
      decreases i - k
    {
      k := k + 1;
    }
  }

  lemma UpdatedIsFound(r: Roster, u: int, item: AdminInfo)
    requires Known(r.admins, u) && !Shadowed(r.admins, u, item.packageName)
    requires AdminByPkgName(r.admins, item.packageName, u).Some?
    ensures var r' := SetAdminValueSpec(r, u, item, Done).roster;
            var was, now := AdminByPkgName(r.admins, item.packageName, u),
                            AdminByPkgName(r'.admins, item.packageName, u);
            now.Some? && Shows(now.value, item) && SameKind(now.value, was.value)
  {
    var p, list, r' := item.packageName, ListOf(r.admins, u), SetAdminValueSpec(r, u, item, Done).roster;
    var list' := ListOf(r'.admins, u);
    LookupFinds(r.admins, p, u);
    var k: nat :| FirstNamed(list, p, k);
    assert list' == Changed(list, p, CopyValue(item));
    assert forall j :: 0 <= j < |list| ==> list'[j].packageName == list[j].packageName &&
                                           list'[j].adminType == list[j].adminType;
    assert FirstNamed(list', p, k);
    LookupFinds(r'.admins, p, u);
    assert AdminByPkgName(r.admins, p, u) == Some(Copy(list[k])) &&
           AdminByPkgName(r'.admins, p, u) == Some(Copy(list'[k]));
  }

  lemma InsertedIsFound(r: Roster, u: int, item: AdminInfo)
    requires Known(r.admins, u) && !Shadowed(r.admins, u, item.packageName) && item.adminType != UNKNOWN
    requires AdminByPkgName(r.admins, item.packageName, u).None?
    ensures AdminByPkgName(SetAdminValueSpec(r, u, item, Done).roster.admins, item.packageName, u) == Some(Copy(item))
  {
    var p, list, r' := item.packageName, ListOf(r.admins, u), SetAdminValueSpec(r, u, item, Done).roster;
    LookupFinds(r.admins, p, u);
    forall i | 0 <= i < |list| ensures list[i].packageName != p {
      if list[i].packageName == p { var k := FirstOfNamed(list, p, i); }
    }
    assert ListOf(r'.admins, u) == list + [Copy(item)];
    assert FirstNamed(ListOf(r'.admins, u), p, |list|);
    LookupFinds(r'.admins, p, u);
  }

  /** What is saved is what is found: a new administrator as it was given, one that was there with the values given and
      of the kind it was. Only a name that the default user has for all accounts is not saved under another user, and
      the lookup finds what it found before. */
  lemma SavedIsFound(r: Roster, u: int, item: AdminInfo)
    requires Known(r.admins, u) && item.adminType != UNKNOWN
    ensures var s := SetAdminValueSpec(r, u, item, Done);
            var was, now := AdminByPkgName(r.admins, item.packageName, u),
                            AdminByPkgName(s.roster.admins, item.packageName, u);
            && s.err == AdminOk
            && if Shadowed(r.admins, u, item.packageName) then was.Some? && now == was
               else now.Some? && Shows(now.value, item) && SameKind(now.value, if was.Some? then was.value else item)
  {
    var p, r' := item.packageName, SetAdminValueSpec(r, u, item, Done).roster;
    if Shadowed(r.admins, u, p) {
      var k: nat :| FirstAcross(ListOf(r.admins, DEFAULT_USER_ID), p, k);
      LookupFinds(r.admins, p, u);
      assert AllKnown(ListOf(r'.admins, u));
      LookupFinds(r'.admins, p, u);
    } else if AdminByPkgName(r.admins, p, u).Some? {
      UpdatedIsFound(r, u, item);
    } else {
      InsertedIsFound(r, u, item);
    }
  }

  /** Under the default user nothing is shadowed. */
  lemma SavedByDefault(r: Roster, item: AdminInfo)
    requires Known(r.admins, DEFAULT_USER_ID) && item.adminType != UNKNOWN
    ensures var was := AdminByPkgName(r.admins, item.packageName, DEFAULT_USER_ID);
            var now := AdminByPkgName(SetAdminValueSpec(r, DEFAULT_USER_ID, item, Done).roster.admins, item.packageName,
                                      DEFAULT_USER_ID);
            now.Some? && Shows(now.value, item) && SameKind(now.value, if was.Some? then was.value else item)
  {
    SavedIsFound(r, DEFAULT_USER_ID, item);
  }

  /** A name that is not found is not shadowed. */
  lemma NewIsFound(r: Roster, u: int, item: AdminInfo)
    requires Known(r.admins, u) && item.adminType != UNKNOWN && AdminByPkgName(r.admins, item.packageName, u).None?
    ensures AdminByPkgName(SetAdminValueSpec(r, u, item, Done).roster.admins, item.packageName, u) == Some(Copy(item))
  {
    LookupFinds(r.admins, item.packageName, u);
    InsertedIsFound(r, u, item);
  }

  /** Entries of other names and users stay as they are, in their order. */
  lemma SavedFrame(r: Roster, u: int, item: AdminInfo, io: Outcome, i: nat)
    requires i < |ListOf(r.admins, u)|
    ensures var admins' := SetAdminValueSpec(r, u, item, io).roster.admins;
            && i < |ListOf(admins', u)| && ListOf(admins', u)[i].packageName == ListOf(r.admins, u)[i].packageName
            && (ListOf(r.admins, u)[i].packageName != item.packageName ==>
                  ListOf(admins', u)[i] == ListOf(r.admins, u)[i])
            && forall v :: v != u ==> ListOf(admins', v) == ListOf(r.admins, v)
  {
  }

  /** A restart finds it as well, when the call could be checked to be written whole. */
  lemma SavedSurvives(r: Roster, u: int, item: AdminInfo)
    requires InSync(r) && Faithful(r, SetValue(u, item))
    ensures var r' := SetAdminValueSpec(r, u, item, Done).roster;
            AdminByPkgName(Restarted(r'.rows), item.packageName, u) == AdminByPkgName(r'.admins, item.packageName, u)
  {
    var r' := SetAdminValueSpec(r, u, item, Done).roster;
    StepSyncIff(r, SetValue(u, item));
    assert r' == RosterSync.Step(r, SetValue(u, item), Done);
    SyncIsRestart(r');
  }

  /** Enterprise information and permissions go to every entry of the package under the user, and to nobody else. */
  lemma EntInfoLeaves(r: Roster, u: int, p: string, entName: string, entDesc: string, i: nat)
    requires i < |ListOf(r.admins, u)|
    ensures var s, e := SetEntInfoSpec(r, u, p, entName, entDesc, Done), ListOf(r.admins, u)[i];
            && s.err == AdminOk && |ListOf(s.roster.admins, u)| == |ListOf(r.admins, u)|
            && ListOf(s.roster.admins, u)[i] ==
               (if e.packageName == p then e.(entName := entName, entDesc := entDesc) else e)
            && forall v :: v != u ==> ListOf(s.roster.admins, v) == ListOf(r.admins, v)
  {
  }

  lemma EntInfoRows(r: Roster, u: int, p: string, entName: string, entDesc: string, i: nat)
    requires i < |r.rows|
    ensures var rows', e := SetEntInfoSpec(r, u, p, entName, entDesc, Done).roster.rows, r.rows[i].info;
            && |rows'| == |r.rows|
            && rows'[i] == Row(r.rows[i].userId, if r.rows[i].userId == u && e.packageName == p
                                                 then e.(entName := entName, entDesc := entDesc) else e)
  {
  }

  lemma PermissionLeaves(r: Roster, u: int, p: string, permission: seq<string>, i: nat)
    requires i < |ListOf(r.admins, u)|
    ensures var s, e := UpdatePermissionSpec(r, u, p, permission, Done), ListOf(r.admins, u)[i];
            && s.err == AdminOk && |ListOf(s.roster.admins, u)| == |ListOf(r.admins, u)|
            && ListOf(s.roster.admins, u)[i] == (if e.packageName == p then e.(permission := permission) else e)
            && forall v :: v != u ==> ListOf(s.roster.admins, v) == ListOf(r.admins, v)
  {
  }

  lemma PermissionRows(r: Roster, u: int, p: string, permission: seq<string>, i: nat)
    requires i < |r.rows|
    ensures var rows', e := UpdatePermissionSpec(r, u, p, permission, Done).roster.rows, r.rows[i].info;
            && |rows'| == |r.rows|
            && rows'[i] == Row(r.rows[i].userId, if r.rows[i].userId == u && e.packageName == p
                                                 then e.(permission := permission) else e)
  {
  }

  // ----- Codes -----

  /** A call that could not write answers so, and changes nothing. */
  predicate Refused(s: RosterResult, r: Roster, io: Outcome, code: AdminErr) {
    && (s.err == StorageUnavailable <==> io == Unavailable) && (s.err == code <==> io == Failed)
    && (s.err == AdminOk <==> io == Done) && (io != Done ==> s.roster == r)
  }

  lemma RosterAnswers(r: Roster, u: int, item: AdminInfo, p: string, permission: seq<string>, entName: string,
                      entDesc: string, io: Outcome)
    ensures Refused(SetAdminValueSpec(r, u, item, io), r, io, SystemAbnormally)
    ensures Refused(UpdatePermissionSpec(r, u, p, permission, io), r, io, SystemAbnormally)
    ensures Refused(SetEntInfoSpec(r, u, p, entName, entDesc, io), r, io, UnknownAdmin)
    ensures u in r.admins ==> Refused(DeleteAdminSpec(r, u, p, io), r, io, DelAdminError)
    ensures u !in r.admins ==> DeleteAdminSpec(r, u, p, io) == RosterResult(r, UnknownAdmin)
  {
  }

  /** Subscriptions answer for the lookup first, then for the storage, and need the row only when events were added or
      withdrawn. */
  lemma EventAnswers(r: Roster, u: int, p: string, events: seq<int>, io: Outcome)
    ensures var found, s := AdminByPkgName(r.admins, p, u), SaveSubscribeEventsSpec(r, u, p, events, io);
            && (found.None? ==> s == RosterResult(r, UnknownAdmin))
            && (found.Some? && io == Unavailable ==> s == RosterResult(r, StorageUnavailable))
            && (found.Some? && io == Failed ==>
                  if forall x :: x in events ==> x in found.value.managedEvents then s.err == AdminOk
                  else s == RosterResult(r, UnknownAdmin))
  {
    var found := AdminByPkgName(r.admins, p, u);
    if found.Some? {
      var was := found.value.managedEvents;
      SubscribedIs(was, events);
      if forall x :: x in events ==> x in was { NothingNew(was, events); }
      else { var x :| x in events && x !in was; assert x in Subscribed(was, events); }
    }
  }

  lemma {:induction false} NothingNew(was: seq<int>, events: seq<int>)
    requires forall x :: x in events ==> x in was
    ensures Subscribed(was, events) == was
  {
    if events != [] {
      var init, last := events[..|events| - 1], events[|events| - 1];
      assert last in events && forall x :: x in init ==> x in events;
      NothingNew(was, init);
    }
  }
}
