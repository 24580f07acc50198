/** Requests that stop between their two store writes, and what trying again does. */
module OrgRetry {
  import opened Membership
  import opened Organization
  import opened OrgStores
  import opened OrgSafety

  // ----- accept -----

  datatype Attempt = Attempt(now: string, calls: Calls)

  function AcceptAttempts(s: Stores, user: string, id: string, attempts: seq<Attempt>): Stores
    decreases attempts
  {
    if attempts == [] then s
    else AcceptAttempts(Accept(s, user, id, attempts[0].now, attempts[0].calls).stores, user, id, attempts[1..])
  }

  lemma {:induction false} JoinedTwice(ms: Members, user: string, before: string, now: string)
    ensures WithJoined(WithJoined(ms, user, before), user, now) == WithJoined(ms, user, now)
  {
  }

  lemma {:induction false} AddedTwice(list: seq<OrgBrief>, id: string, name: string)
    ensures AddID(AddID(list, id, name), id, name) == AddID(list, id, name)
  {
    HasIDAppend(list, OrgBrief(id, name), id);
  }

  predicate Keyed(s: Stores, id: string) {
    id in s.orgs ==> s.orgs[id].id == id
  }

  /** An accept that finds both records writes the organisation, and then perhaps the profile. */
  lemma {:induction false} AcceptParts(s: Stores, user: string, id: string, now: string, c: Calls)
    requires user in s.profiles && id in s.orgs && s.orgs[id].id == id && c.orgWrite
    ensures var half := PutOrg(s, s.orgs[id].(members := WithJoined(s.orgs[id].members, user, now)));
      var p := s.profiles[user];
      Accept(s, user, id, now, c) == if !c.profileWrite then Reply(half, Failed)
        else Reply(PutProfile(half, user, p.(orgList := AddID(p.orgList, id, s.orgs[id].name))), Done)
  {
  }

  /** A whole accept makes good whatever an earlier one, cut short anywhere or not at all, left behind. */
  lemma {:induction false} AcceptAbsorbs(s: Stores, user: string, id: string, before: string, c: Calls, now: string)
    requires Keyed(s, id)
    ensures Keyed(Accept(s, user, id, before, c).stores, id)
    ensures Accept(Accept(s, user, id, before, c).stores, user, id, now, ALL_WELL) == Accept(s, user, id, now, ALL_WELL)
  {
    if user in s.profiles && id in s.orgs && c.orgWrite {
      AcceptParts(s, user, id, before, c);
      AcceptParts(s, user, id, now, ALL_WELL);
      var half := Accept(s, user, id, before, c).stores;
      AcceptParts(half, user, id, now, ALL_WELL);
      JoinedTwice(s.orgs[id].members, user, before, now);
      AddedTwice(s.profiles[user].orgList, id, s.orgs[id].name);
    }
  }

  /** Any number of accepts, each stopped anywhere, and then one that goes through: both stores are as
      after that one alone. */
  lemma {:induction false} AcceptConverges(s: Stores, user: string, id: string, attempts: seq<Attempt>, now: string)
    requires Keyed(s, id)
    ensures Accept(AcceptAttempts(s, user, id, attempts), user, id, now, ALL_WELL) == Accept(s, user, id, now, ALL_WELL)
    decreases attempts
  {
    if attempts != [] {
      var a := attempts[0];
      AcceptAbsorbs(s, user, id, a.now, a.calls, now);
      AcceptConverges(Accept(s, user, id, a.now, a.calls).stores, user, id, attempts[1..], now);
    }
  }

  // ----- leave -----

  function LeaveAttempts(s: Stores, user: string, id: string, attempts: seq<Calls>): Stores
    decreases attempts
  {
    if attempts == [] then s
    else LeaveAttempts(Leave(s, user, id, attempts[0]).stores, user, id, attempts[1..])
  }

  /** Leave reads nothing else than one organisation and one profile; this much of the invariant
      survives a leave that is cut short. */
  predicate Plain(s: Stores, user: string, id: string) {
    && (id in s.orgs ==> s.orgs[id].id == id && DistinctNames(s.orgs[id].members))
    && (user in s.profiles ==> DistinctIDs(s.profiles[user].orgList))
  }

  lemma {:induction false} WithoutTwice(ms: Members, user: string)
    requires DistinctNames(ms)
    ensures var rest := Without(ms, user);
      (forall k :: 0 <= k < |rest| ==> rest[k].memberName != user)
      && !Listed(rest, user) && !HasAdmin(rest, user) && DistinctNames(rest)
      && !SweepOutOfRange(rest, user) && Swept(rest, user) == rest
  {
    var rest := Without(ms, user);
    WithoutLength(ms, user);
    WithoutDistinct(ms, user);
    DistinctSweep(rest, user);
    NothingToDrop(rest, user);
  }

  lemma {:induction false} NothingToDrop(ms: Members, user: string)
    requires forall k :: 0 <= k < |ms| ==> ms[k].memberName != user
    ensures Without(ms, user) == ms
  {
    if ms != [] { NothingToDrop(ms[1..], user); }
  }

  /** A leave that got past its refusals has written the organisation, and then perhaps the profile. */
  lemma {:induction false} LeaveParts(s: Stores, user: string, id: string, c: Calls)
    requires Plain(s, user, id) && user in s.profiles && HasID(s.profiles[user].orgList, id)
    requires id in s.orgs && !IsLastAdmin(s.orgs[id].members, user) && c.orgWrite
    ensures var half := PutOrg(s, s.orgs[id].(members := Without(s.orgs[id].members, user)));
      Leave(s, user, id, c).stores == if !c.profileWrite then half
        else PutProfile(half, user, s.profiles[user].(orgList := DropID(s.profiles[user].orgList, id)))
  {
    DistinctSweep(s.orgs[id].members, user);
  }

  /** A whole leave makes good whatever an earlier one left behind. */
  lemma {:induction false} LeaveAbsorbs(s: Stores, user: string, id: string, c: Calls)
    requires Plain(s, user, id)
    ensures Plain(Leave(s, user, id, c).stores, user, id)
    ensures Leave(Leave(s, user, id, c).stores, user, id, ALL_WELL).stores == Leave(s, user, id, ALL_WELL).stores
  {
    if user in s.profiles && HasID(s.profiles[user].orgList, id) && id in s.orgs && c.orgWrite
      && !IsLastAdmin(s.orgs[id].members, user)
    {
      LeaveParts(s, user, id, c);
      LeaveParts(s, user, id, ALL_WELL);
      WithoutTwice(s.orgs[id].members, user);
      DropIDAll(s.profiles[user].orgList, id);
      if !c.profileWrite {
        var half := Leave(s, user, id, c).stores;
        LeaveParts(half, user, id, ALL_WELL);
        NothingToDrop(half.orgs[id].members, user);
        assert PutOrg(half, half.orgs[id]) == half;
      }
    } else {
      LeaveRefused(s, user, id, c);
    }
  }

  lemma {:induction false} LeaveRefused(s: Stores, user: string, id: string, c: Calls)
    requires Plain(s, user, id)
    requires user !in s.profiles || !HasID(s.profiles[user].orgList, id) || id !in s.orgs || !c.orgWrite
      || IsLastAdmin(s.orgs[id].members, user)
    ensures Leave(s, user, id, c).stores == s
  {
    if id in s.orgs {
      DistinctSweep(s.orgs[id].members, user);
    }
  }

  /** Likewise for leave. After a leave that went through, later ones are refused and change nothing. */
  lemma {:induction false} LeaveConverges(s: Stores, user: string, id: string, attempts: seq<Calls>)
    requires Plain(s, user, id)
    ensures Leave(LeaveAttempts(s, user, id, attempts), user, id, ALL_WELL).stores
         == Leave(s, user, id, ALL_WELL).stores
    decreases attempts
  {
    if attempts != [] {
      LeaveAbsorbs(s, user, id, attempts[0]);
      LeaveConverges(Leave(s, user, id, attempts[0]).stores, user, id, attempts[1..]);
    }
  }

  // ----- remove -----

  /** The whole removal goes through: the caller's doing, not an accident of the calls. */
  predicate RemoveGoes(s: Stores, user: string, id: string, member: string) {
    RemovePasses(s, user, id, member) && member in s.profiles
  }

  lemma {:induction false} RemoveGoesIff(s: Stores, user: string, id: string, member: string)
    requires Inv(s)
    ensures RemoveGoes(s, user, id, member) <==> Remove(s, user, id, member, ALL_WELL).outcome == Done
  {
    if RemovePasses(s, user, id, member) {
      RemoveWrites(s, user, id, member, ALL_WELL);
    } else {
      RemoveStops(s, user, id, member, ALL_WELL);
    }
  }

  lemma {:induction false} AdminRemains(ms: Members, user: string, member: string)
    requires HasAdmin(ms, user) && user != member
    ensures HasAdmin(Without(ms, member), user)
  {
    var i :| 0 <= i < |ms| && ms[i].memberName == user && ms[i].isAdmin;
    WithoutMembers(ms, member, ms[i]);
    var rest := Without(ms, member);
    var k :| 0 <= k < |rest| && rest[k] == ms[i];
  }

  lemma {:induction false} NothingToDropFromList(list: seq<OrgBrief>, id: string)
    requires !HasID(list, id)
    ensures DropID(list, id) == list
  {
    DropIDAt(list, id, |list|);
  }

  /** After a removal that has written the organisation: what is left to do is at most one profile. */
  lemma {:induction false} AfterCutRemove(s: Stores, user: string, id: string, member: string, c: Calls)
    requires Inv(s) && RemoveGoes(s, user, id, member) && c.orgWrite
    ensures var half := Remove(s, user, id, member, c).stores;
      && Points(half, user, id) && id in half.orgs && half.orgs[id].id == id
      && half.orgs[id].members == Without(s.orgs[id].members, member)
      && HasAdmin(half.orgs[id].members, user) && !Listed(half.orgs[id].members, member)
      && DistinctNames(half.orgs[id].members) && member in half.profiles
      && DropID(half.profiles[member].orgList, id) == DropID(s.profiles[member].orgList, id)
  {
    RemoveWrites(s, user, id, member, c);
    assert GoodOrg(s.orgs[id], id);
    AdminRemains(s.orgs[id].members, user, member);
    WithoutTwice(s.orgs[id].members, member);
    var list := s.profiles[member].orgList;
    DropIDAll(list, id);
    NothingToDropFromList(DropID(list, id), id);
  }

  /** A removal can be repeated exactly when it has not written the organisation. From then on every attempt is
      refused, whatever its calls would answer. */
  lemma {:induction false} RemoveRetryIff(s: Stores, user: string, id: string, member: string, c: Calls)
    requires Inv(s) && RemoveGoes(s, user, id, member)
    ensures var half := Remove(s, user, id, member, c).stores;
      && (Remove(half, user, id, member, ALL_WELL).outcome == Done <==> !c.orgWrite)
      && (c.orgWrite ==> forall again ::
            Remove(half, user, id, member, again) == Reply(half, Refused(ERR_USER_NOT_FOUND)))
  {
    if c.orgWrite {
      AfterCutRemove(s, user, id, member, c);
    } else {
      RemoveStops(s, user, id, member, c);
      RemoveGoesIff(s, user, id, member);
    }
  }

  /** How far a removal that has written the organisation is from the whole one. */
  lemma {:induction false} CutRemoveIsWholeIff(s: Stores, user: string, id: string, member: string, c: Calls)
    requires Inv(s) && RemoveGoes(s, user, id, member) && c.orgWrite
    ensures var half, whole := Remove(s, user, id, member, c).stores, Remove(s, user, id, member, ALL_WELL).stores;
      && half.orgs == whole.orgs
      && (half.profiles == whole.profiles <==>
            !JoinedIn(s, member, id) || (c.adminRole && c.editRole && c.profileWrite))
  {
    RemoveWrites(s, user, id, member, c);
    RemoveWrites(s, user, id, member, ALL_WELL);
    assert Points(s, member, id) <==> JoinedIn(s, member, id);
    var p := s.profiles[member];
    DropIDAll(p.orgList, id);
    if !Points(s, member, id) {
      NothingToDropFromList(p.orgList, id);
      assert s.profiles[member := p.(orgList := DropID(p.orgList, id))] == s.profiles;
    }
  }

  /** The stale profile of a joined member: it points where the member no longer is. */
  lemma {:induction false} CutRemoveLeavesPointer(s: Stores, user: string, id: string, member: string, c: Calls)
    requires Inv(s) && RemoveGoes(s, user, id, member) && c.orgWrite
    ensures var half := Remove(s, user, id, member, c).stores;
      && !JoinedIn(half, member, id)
      && (Points(half, member, id) <==> JoinedIn(s, member, id) && !(c.adminRole && c.editRole && c.profileWrite))
  {
    RemoveWrites(s, user, id, member, c);
    assert Points(s, member, id) <==> JoinedIn(s, member, id);
    DropIDAll(s.profiles[member].orgList, id);
    JoinedWithout(s.orgs[id].members, member, member);
  }

  /** A leave of someone who is not in the list writes that one profile only. */
  lemma {:induction false} LeaveOfUnlisted(s: Stores, user: string, id: string)
    requires id in s.orgs && s.orgs[id].id == id
    requires !Listed(s.orgs[id].members, user) && DistinctNames(s.orgs[id].members)
    ensures Leave(s, user, id, ALL_WELL).stores
         == if Points(s, user, id)
            then PutProfile(s, user, s.profiles[user].(orgList := DropID(s.profiles[user].orgList, id)))
            else s
  {
    NoMatch(s.orgs[id].members, user);
    assert s.orgs[id := s.orgs[id]] == s.orgs;
  }

  /** The removed user can make it good by leaving: both maps end as after the whole removal. The roles stay as
      the removal left them. */
  lemma {:induction false} LeaveCompletesRemove(s: Stores, user: string, id: string, member: string, c: Calls)
    requires Inv(s) && RemoveGoes(s, user, id, member) && c.orgWrite
    ensures var half, whole := Remove(s, user, id, member, c).stores, Remove(s, user, id, member, ALL_WELL).stores;
      var left := Leave(half, member, id, ALL_WELL).stores;
      && left.orgs == whole.orgs && left.profiles == whole.profiles
      && left.adminRoles == half.adminRoles && left.editRoles == half.editRoles
  {
    var half := Remove(s, user, id, member, c).stores;
    AfterCutRemove(s, user, id, member, c);
    CutRemoveIsWholeIff(s, user, id, member, c);
    CutRemoveLeavesPointer(s, user, id, member, c);
    RemoveWrites(s, user, id, member, c);
    RemoveWrites(s, user, id, member, ALL_WELL);
    LeaveOfUnlisted(half, member, id);
  }

  lemma {:induction false} NoMatch(ms: Members, user: string)
    requires !Listed(ms, user) && DistinctNames(ms)
    ensures !IsLastAdmin(ms, user) && !SweepOutOfRange(ms, user) && Swept(ms, user) == ms
  {
    DistinctSweep(ms, user);
    NothingToDrop(ms, user);
  }

  lemma {:induction false} AppendAndRemove(ms: Members, m: OrgMember)
    requires !Listed(ms, m.memberName) && DistinctNames(ms)
    ensures DistinctNames(ms + [m]) && Listed(ms + [m], m.memberName)
    ensures !SweepOutOfRange(ms + [m], m.memberName) && Swept(ms + [m], m.memberName) == ms
  {
    var all := ms + [m];
    assert all[|ms|] == m;
    DistinctSweep(all, m.memberName);
    WithoutLast(ms, m);
  }

  lemma {:induction false} WithoutLast(ms: Members, m: OrgMember)
    requires !Listed(ms, m.memberName)
    ensures Without(ms + [m], m.memberName) == ms
  {
    if ms == [] {
      assert [] + [m] == [m];
    } else {
      var rest := ms[1..];
      assert forall i :: 0 <= i < |rest| ==> rest[i] == ms[i + 1];
      WithoutLast(rest, m);
      assert (ms + [m])[1..] == rest + [m] && ms[0].memberName != m.memberName;
    }
  }

  /** So can an admin, with two requests: whatever the removal left, inviting the user anew and removing again
      ends in the very reply of the whole removal. */
  lemma {:induction false} ReinviteCompletesRemove(s: Stores, user: string, id: string, m: OrgMember, c: Calls)
    requires Inv(s) && RemoveGoes(s, user, id, m.memberName)
    ensures var half := Remove(s, user, id, m.memberName, c).stores;
      Remove(Invite(half, user, id, m, ALL_WELL).stores, user, id, m.memberName, ALL_WELL)
      == Remove(s, user, id, m.memberName, ALL_WELL)
  {
    var member := m.memberName;
    if c.orgWrite {
      ReinviteAfterCut(s, user, id, m, c);
    } else {
      RemoveStops(s, user, id, member, c);
    }
  }

  /** A removal of the last entry of a list. */
  lemma {:induction false} RemoveLast(s: Stores, user: string, id: string, ms: Members, entry: OrgMember)
    requires Points(s, user, id) && id in s.orgs && s.orgs[id].id == id && s.orgs[id].members == ms + [entry]
    requires HasAdmin(ms, user) && DistinctNames(ms) && !Listed(ms, entry.memberName)
    requires user != entry.memberName && entry.memberName in s.profiles
    ensures var org := s.orgs[id].(members := ms);
      var p := s.profiles[entry.memberName];
      Remove(s, user, id, entry.memberName, ALL_WELL)
      == Reply(PutProfile(SendRoles(PutOrg(s, org), org, ALL_WELL),
                          entry.memberName, p.(orgList := DropID(p.orgList, id))), Done)
  {
    AppendAndRemove(ms, entry);
    var i :| 0 <= i < |ms| && ms[i].memberName == user && ms[i].isAdmin;
    assert (ms + [entry])[i] == ms[i];
  }

  /** An invite that nothing stands against. */
  lemma {:induction false} InviteBack(s: Stores, user: string, id: string, m: OrgMember)
    requires Points(s, user, id) && id in s.orgs && s.orgs[id].id == id
    requires HasAdmin(s.orgs[id].members, user) && !Listed(s.orgs[id].members, m.memberName)
      && m.memberName in s.profiles
    ensures var entry := m.(status := Invited, privilegedBy := if m.isAdmin then user else m.privilegedBy);
      var org := s.orgs[id].(members := s.orgs[id].members + [entry]);
      Invite(s, user, id, m, ALL_WELL).stores == PutOrg(SendRoles(s, org, ALL_WELL), org)
  {
  }

  lemma {:induction false} ReinviteAfterCut(s: Stores, user: string, id: string, m: OrgMember, c: Calls)
    requires Inv(s) && RemoveGoes(s, user, id, m.memberName) && c.orgWrite
    ensures var half := Remove(s, user, id, m.memberName, c).stores;
      Remove(Invite(half, user, id, m, ALL_WELL).stores, user, id, m.memberName, ALL_WELL)
      == Remove(s, user, id, m.memberName, ALL_WELL)
  {
    var half := Remove(s, user, id, m.memberName, c).stores;
    AfterCutRemove(s, user, id, m.memberName, c);
    RoundTripEnd(half, user, id, m);
    WholeRemoveEnd(s, half, user, id, m.memberName, c);
  }

  /** What is reached from a cut removal by way of an invite. */
  function Completed(half: Stores, id: string, member: string): Stores
    requires id in half.orgs && member in half.profiles
  {
    var p := half.profiles[member];
    PutProfile(SendRoles(half, half.orgs[id], ALL_WELL), member, p.(orgList := DropID(p.orgList, id)))
  }

  /** A cut removal and then an invite as admin: the user passes the gate as an admin without having joined,
      exactly when the removal took a joined member and did not reach the profile. */
  lemma {:induction false} CutRemoveOpensGateIff(s: Stores, user: string, id: string, m: OrgMember, c: Calls)
    requires Inv(s) && RemoveGoes(s, user, id, m.memberName) && c.orgWrite && m.isAdmin
    ensures var back := Invite(Remove(s, user, id, m.memberName, c).stores, user, id, m, ALL_WELL).stores;
      && id in back.orgs && HasAdmin(back.orgs[id].members, m.memberName) && !JoinedIn(back, m.memberName, id)
      && (Gate(back, m.memberName, id) == Done <==>
            JoinedIn(s, m.memberName, id) && !(c.adminRole && c.editRole && c.profileWrite))
  {
    var half := Remove(s, user, id, m.memberName, c).stores;
    AfterCutRemove(s, user, id, m.memberName, c);
    CutRemoveLeavesPointer(s, user, id, m.memberName, c);
    InviteBack(half, user, id, m);
    var entry := m.(status := Invited, privilegedBy := user);
    var ms := half.orgs[id].members + [entry];
    assert ms[|half.orgs[id].members|] == entry;
    JoinedAppend(half.orgs[id].members, entry, m.memberName);
  }

  lemma {:induction false} RoundTripEnd(half: Stores, user: string, id: string, m: OrgMember)
    requires Points(half, user, id) && id in half.orgs && half.orgs[id].id == id && m.memberName in half.profiles
    requires HasAdmin(half.orgs[id].members, user) && !Listed(half.orgs[id].members, m.memberName)
    requires DistinctNames(half.orgs[id].members) && user != m.memberName
    ensures Remove(Invite(half, user, id, m, ALL_WELL).stores, user, id, m.memberName, ALL_WELL)
         == Reply(Completed(half, id, m.memberName), Done)
  {
    var entry := m.(status := Invited, privilegedBy := if m.isAdmin then user else m.privilegedBy);
    InviteBack(half, user, id, m);
    var org := half.orgs[id];
    var more := org.(members := org.members + [entry]);
    var back := Invite(half, user, id, m, ALL_WELL).stores;
    RemoveLast(back, user, id, org.members, entry);
    SetTwice(half.orgs, id, more, org);
    SetTwice(half.adminRoles, id, AdminRole(more.members), AdminRole(org.members));
    SetTwice(half.editRoles, id, EditRole(more.members), EditRole(org.members));
    assert half.orgs[id := org] == half.orgs;
  }

  lemma {:induction false} SetTwice<V>(m: map<string, V>, key: string, first: V, last: V)
    ensures m[key := first][key := last] == m[key := last]
  {
  }

  /** Whatever became of a role that was sent, sending it again settles it. */
  lemma {:induction false} SendTwice(roles: map<string, RoleBinding>, id: string, first: RoleBinding, last: RoleBinding,
                                     ok: bool, gone: bool)
    ensures SendRole(roles, id, first, ok, gone)[id := last] == roles[id := last]
  {
  }

  /** The whole removal reaches the same. */
  lemma {:induction false} WholeRemoveEnd(s: Stores, half: Stores, user: string, id: string, member: string, c: Calls)
    requires Inv(s) && RemoveGoes(s, user, id, member) && c.orgWrite && half == Remove(s, user, id, member, c).stores
    requires id in half.orgs && member in half.profiles
    requires DropID(half.profiles[member].orgList, id) == DropID(s.profiles[member].orgList, id)
    ensures Remove(s, user, id, member, ALL_WELL) == Reply(Completed(half, id, member), Done)
  {
    RemoveWrites(s, user, id, member, c);
    RemoveWrites(s, user, id, member, ALL_WELL);
    WholeRemoveRoles(s, user, id, member);
    CutRemoveRoles(s, user, id, member, c);
    var whole, t := Remove(s, user, id, member, ALL_WELL).stores, Completed(half, id, member);
    assert whole.profiles == t.profiles;
  }

  lemma {:induction false} WholeRemoveRoles(s: Stores, user: string, id: string, member: string)
    requires Inv(s) && RemoveGoes(s, user, id, member)
    ensures var whole := Remove(s, user, id, member, ALL_WELL).stores;
      var rest := Without(s.orgs[id].members, member);
      && whole.adminRoles == s.adminRoles[id := AdminRole(rest)]
      && whole.editRoles == s.editRoles[id := EditRole(rest)]
  {
    assert GoodOrg(s.orgs[id], id);
    DistinctSweep(s.orgs[id].members, member);
  }

  /** What a cut removal did to the roles is made good by sending them. */
  lemma {:induction false} CutRemoveRoles(s: Stores, user: string, id: string, member: string, c: Calls)
    requires Inv(s) && RemoveGoes(s, user, id, member) && c.orgWrite
    ensures var half := Remove(s, user, id, member, c).stores;
      var rest := Without(s.orgs[id].members, member);
      && half.adminRoles[id := AdminRole(rest)] == s.adminRoles[id := AdminRole(rest)]
      && half.editRoles[id := EditRole(rest)] == s.editRoles[id := EditRole(rest)]
  {
    assert GoodOrg(s.orgs[id], id);
    DistinctSweep(s.orgs[id].members, member);
    var rest := Without(s.orgs[id].members, member);
    SendTwice(s.adminRoles, id, AdminRole(rest), AdminRole(rest), c.adminRole, c.adminGone);
    SendTwice(s.editRoles, id, EditRole(rest), EditRole(rest), c.editRole, c.editGone);
  }
}
