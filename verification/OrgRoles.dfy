/** The role bindings in force against the stored member lists. */
module OrgRoles {
  import opened Membership
  import opened Organization
  import opened Validation
  import opened OrgStores
  import opened OrgSafety

  // ----- what a list of names has to be -----

  /** The positions `at` are, in order, those of the members of that kind, and `sub` reads off their names. */
  predicate Picks(ms: Members, admin: bool, sub: seq<string>, at: seq<nat>) {
    && |at| == |sub|
    && (forall k :: 0 <= k < |at| ==>
          at[k] < |ms| && ms[at[k]].isAdmin == admin && ms[at[k]].memberName == sub[k])
    && (forall k, l :: 0 <= k < l < |at| ==> at[k] < at[l])
    && (forall i :: 0 <= i < |ms| && ms[i].isAdmin == admin ==> i in at)
  }

  ghost predicate PicksInOrder(ms: Members, admin: bool, sub: seq<string>) {
    exists at :: Picks(ms, admin, sub, at)
  }

  lemma {:induction false} PickLast(ms: Members, admin: bool, front: seq<string>, at: seq<nat>)
    requires |ms| > 0 && Picks(ms[..|ms| - 1], admin, front, at)
    ensures ms[|ms| - 1].isAdmin == admin ==>
      Picks(ms, admin, front + [ms[|ms| - 1].memberName], at + [|ms| - 1])
    ensures ms[|ms| - 1].isAdmin != admin ==> Picks(ms, admin, front, at)
  {
    var n := |ms| - 1;
    forall i | 0 <= i < n && ms[i].isAdmin == admin ensures i in at {
      assert ms[..n][i] == ms[i];
    }
    if ms[n].isAdmin == admin {
      var more, all := at + [n], front + [ms[n].memberName];
      assert forall i :: i in at ==> i in more;
      assert more[|at|] == n && all[|at|] == ms[n].memberName;
    }
  }

  lemma {:induction false} NamesArePicked(ms: Members, admin: bool)
    ensures PicksInOrder(ms, admin, RoleNames(ms, admin))
  {
    if ms == [] {
      assert Picks(ms, admin, [], []);
    } else {
      var init := ms[..|ms| - 1];
      NamesArePicked(init, admin);
      var at :| Picks(init, admin, RoleNames(init, admin), at);
      PickLast(ms, admin, RoleNames(init, admin), at);
    }
  }

  lemma {:induction false} AtMost(at: seq<nat>, n: nat)
    requires forall k :: 0 <= k < |at| ==> at[k] < n
    requires forall k, l :: 0 <= k < l < |at| ==> at[k] < at[l]
    ensures |at| <= n
  {
    if |at| > 0 {
      AtMost(at[..|at| - 1], at[|at| - 1]);
    }
  }

  /** The last position of that kind is picked last. */
  lemma {:induction false} UnpickLast(ms: Members, admin: bool, sub: seq<string>, at: seq<nat>)
    requires |ms| > 0 && ms[|ms| - 1].isAdmin == admin && Picks(ms, admin, sub, at)
    ensures |at| > 0 && at[|at| - 1] == |ms| - 1
    ensures Picks(ms[..|ms| - 1], admin, sub[..|sub| - 1], at[..|at| - 1])
  {
    var n := |ms| - 1;
    assert n in at;
    var k :| 0 <= k < |at| && at[k] == n;
    assert at[|at| - 1] >= at[k];
    var fewer := at[..|at| - 1];
    forall i | 0 <= i < n && ms[..n][i].isAdmin == admin ensures i in fewer {
      assert ms[i].isAdmin == admin && i in at;
      var j :| 0 <= j < |at| && at[j] == i;
      assert fewer[j] == i;
    }
  }

  lemma {:induction false} UnpickOther(ms: Members, admin: bool, sub: seq<string>, at: seq<nat>)
    requires |ms| > 0 && ms[|ms| - 1].isAdmin != admin && Picks(ms, admin, sub, at)
    ensures Picks(ms[..|ms| - 1], admin, sub, at)
  {
    var n := |ms| - 1;
    forall k | 0 <= k < |at| ensures at[k] < n {
      assert ms[at[k]].isAdmin == admin;
    }
    forall i | 0 <= i < n && ms[..n][i].isAdmin == admin ensures i in at {
      assert ms[i].isAdmin == admin;
    }
  }

  lemma {:induction false} PickedAreNames(ms: Members, admin: bool, sub: seq<string>, at: seq<nat>)
    requires Picks(ms, admin, sub, at)
    ensures sub == RoleNames(ms, admin)
  {
    if ms == [] {
      AtMost(at, 0);
    } else {
      var n := |ms| - 1;
      if ms[n].isAdmin == admin {
        UnpickLast(ms, admin, sub, at);
        PickedAreNames(ms[..n], admin, sub[..|sub| - 1], at[..|at| - 1]);
        assert sub == sub[..|sub| - 1] + [sub[|sub| - 1]];
      } else {
        UnpickOther(ms, admin, sub, at);
        PickedAreNames(ms[..n], admin, sub, at);
      }
    }
  }

  /** The loop collects the one list of names that fits. */
  lemma {:induction false} PicksIffNames(ms: Members, admin: bool, sub: seq<string>)
    ensures PicksInOrder(ms, admin, sub) <==> sub == RoleNames(ms, admin)
  {
    if PicksInOrder(ms, admin, sub) {
      var at :| Picks(ms, admin, sub, at);
      PickedAreNames(ms, admin, sub, at);
    }
    NamesArePicked(ms, admin);
  }

  // ----- how the lists of names change with the members -----

  lemma {:induction false} NamesConcat(a: Members, b: Members, admin: bool)
    ensures RoleNames(a + b, admin) == RoleNames(a, admin) + RoleNames(b, admin)
  {
    if b == [] {
      assert a + b == a;
    } else {
      assert (a + b)[..|a + b| - 1] == a + b[..|b| - 1];
      NamesConcat(a, b[..|b| - 1], admin);
    }
  }

  lemma {:induction false} NamesOfOne(m: OrgMember, admin: bool)
    ensures RoleNames([m], admin) == if m.isAdmin == admin then [m.memberName] else []
  {
    assert [m][..0] == [];
  }

  /** Exactly one of the two lists of an appended member grows. */
  lemma {:induction false} NamesAfterAppend(ms: Members, m: OrgMember, admin: bool)
    ensures RoleNames(ms + [m], admin) == RoleNames(ms, admin) <==> m.isAdmin != admin
  {
    NamesConcat(ms, [m], admin);
    NamesOfOne(m, admin);
  }

  predicate OfKind(ms: Members, user: string, admin: bool) {
    exists i :: 0 <= i < |ms| && ms[i].memberName == user && ms[i].isAdmin == admin
  }

  lemma {:induction false} InNames(ms: Members, user: string, admin: bool)
    ensures user in RoleNames(ms, admin) <==> OfKind(ms, user, admin)
  {
    if ms != [] {
      var front, last := ms[..|ms| - 1], ms[|ms| - 1];
      InNames(front, user, admin);
      if OfKind(front, user, admin) {
        var i :| 0 <= i < |front| && front[i].memberName == user && front[i].isAdmin == admin;
        assert ms[i] == front[i];
      }
      if OfKind(ms, user, admin) {
        var i :| 0 <= i < |ms| && ms[i].memberName == user && ms[i].isAdmin == admin;
        assert i < |front| ==> front[i] == ms[i];
      }
    }
  }

  lemma {:induction false} NamesWithoutOther(ms: Members, user: string, admin: bool)
    requires !OfKind(ms, user, admin)
    ensures RoleNames(Without(ms, user), admin) == RoleNames(ms, admin)
  {
    if ms != [] {
      var first, rest := ms[0], ms[1..];
      assert ms == [first] + rest;
      assert forall i :: 0 <= i < |rest| ==> rest[i] == ms[i + 1];
      NamesWithoutOther(rest, user, admin);
      NamesConcat([first], rest, admin);
      NamesOfOne(first, admin);
      if first.memberName == user {
        assert Without(ms, user) == Without(rest, user);
      } else {
        NamesConcat([first], Without(rest, user), admin);
      }
    }
  }

  /** A list of names changes with a removal exactly when the name is of that kind. */
  lemma {:induction false} NamesAfterWithout(ms: Members, user: string, admin: bool)
    ensures RoleNames(Without(ms, user), admin) == RoleNames(ms, admin) <==> !OfKind(ms, user, admin)
  {
    if OfKind(ms, user, admin) {
      InNames(ms, user, admin);
      InNames(Without(ms, user), user, admin);
      WithoutLength(ms, user);
    } else {
      NamesWithoutOther(ms, user, admin);
    }
  }

  lemma {:induction false} SameKinds(a: Members, b: Members, admin: bool)
    requires |a| == |b|
    requires forall i :: 0 <= i < |a| ==> a[i].memberName == b[i].memberName && a[i].isAdmin == b[i].isAdmin
    ensures RoleNames(a, admin) == RoleNames(b, admin)
  {
    if a != [] {
      SameKinds(a[..|a| - 1], b[..|b| - 1], admin);
    }
  }

  /** With distinct names, a member is of the one kind or of the other. */
  lemma {:induction false} OneKind(ms: Members, user: string)
    requires DistinctNames(ms) && Listed(ms, user)
    ensures OfKind(ms, user, true) <==> HasAdmin(ms, user)
    ensures OfKind(ms, user, false) <==> !HasAdmin(ms, user)
  {
    var i :| 0 <= i < |ms| && ms[i].memberName == user;
    assert forall j :: 0 <= j < |ms| && ms[j].memberName == user ==> j == i;
  }

  /** Both lists of names change with a change of privilege, or neither does. */
  lemma {:induction false} NamesAfterPrivilege(ms: Members, user: string, isAdmin: bool, granter: string, admin: bool)
    requires DistinctNames(ms) && Listed(ms, user)
    ensures RoleNames(WithPrivilege(ms, user, isAdmin, granter), admin) == RoleNames(ms, admin)
       <==> (HasAdmin(ms, user) <==> isAdmin)
  {
    var k := FirstEntry(ms, user);
    WithPrivilegeAt(ms, user, isAdmin, granter, k);
    var after := WithPrivilege(ms, user, isAdmin, granter);
    OneKind(ms, user);
    assert HasAdmin(ms, user) <==> ms[k].isAdmin;
    if ms[k].isAdmin == isAdmin {
      SameKinds(after, ms, admin);
    } else {
      InNames(ms, user, admin);
      InNames(after, user, admin);
      assert after[k].memberName == user && after[k].isAdmin == isAdmin;
      assert forall j :: 0 <= j < |after| && after[j].memberName == user ==> j == k;
    }
  }

  // ----- bindings in force -----

  /** The bindings of the organisation hold its admins and its other members, in list order, with
      subjects and user names matching position by position. */
  ghost predicate RolesMatch(s: Stores, id: string) {
    && id in s.orgs && id in s.adminRoles && id in s.editRoles
    && s.adminRoles[id].subjects == s.adminRoles[id].userNames
    && s.editRoles[id].subjects == s.editRoles[id].userNames
    && PicksInOrder(s.orgs[id].members, true, s.adminRoles[id].userNames)
    && PicksInOrder(s.orgs[id].members, false, s.editRoles[id].userNames)
  }

  /** What would be sent is in force. */
  predicate InForce(s: Stores, id: string) {
    && id in s.orgs && id in s.adminRoles && id in s.editRoles
    && s.adminRoles[id] == AdminRole(s.orgs[id].members) && s.editRoles[id] == EditRole(s.orgs[id].members)
  }

  lemma {:induction false} MatchIffInForce(s: Stores, id: string)
    ensures RolesMatch(s, id) <==> InForce(s, id)
  {
    if id in s.orgs && id in s.adminRoles && id in s.editRoles {
      PicksIffNames(s.orgs[id].members, true, s.adminRoles[id].userNames);
      PicksIffNames(s.orgs[id].members, false, s.editRoles[id].userNames);
    }
  }

  /** After every successful invite, removal or privilege change, whatever else was or was not in
      force before, the bindings match the stored list. */
  lemma {:induction false} InviteSendsRoles(s: Stores, user: string, id: string, member: OrgMember, c: Calls)
    requires id in s.orgs ==> s.orgs[id].id == id
    requires Invite(s, user, id, member, c).outcome == Done
    ensures RolesMatch(Invite(s, user, id, member, c).stores, id)
  {
    MatchIffInForce(Invite(s, user, id, member, c).stores, id);
  }

  lemma {:induction false} RemoveSendsRoles(s: Stores, user: string, id: string, member: string, c: Calls)
    requires id in s.orgs ==> s.orgs[id].id == id
    requires Remove(s, user, id, member, c).outcome == Done
    ensures RolesMatch(Remove(s, user, id, member, c).stores, id)
  {
    MatchIffInForce(Remove(s, user, id, member, c).stores, id);
  }

  lemma {:induction false} PrivilegeSendsRoles(s: Stores, user: string, id: string, member: string, isAdmin: bool,
                                               c: Calls)
    requires id in s.orgs ==> s.orgs[id].id == id
    requires Privilege(s, user, id, member, isAdmin, c).outcome == Done
    ensures RolesMatch(Privilege(s, user, id, member, isAdmin, c).stores, id)
  {
    MatchIffInForce(Privilege(s, user, id, member, isAdmin, c).stores, id);
  }

  // ----- which requests keep matching bindings matching -----

  /** A role that was sent to a list it does not change, or was not sent and not lost either. */
  predicate RoleStands(sent: bool, gone: bool, changes: bool) {
    if sent then !changes else !gone
  }

  /** A role that was sent, or stands because the list it is for has not changed. */
  predicate RoleFollows(sent: bool, gone: bool, changes: bool) {
    sent || (!gone && !changes)
  }

  predicate InvitePasses(s: Stores, user: string, id: string, member: OrgMember) {
    && Points(s, user, id) && id in s.orgs && HasAdmin(s.orgs[id].members, user)
    && !Listed(s.orgs[id].members, member.memberName) && member.memberName in s.profiles
  }

  predicate PrivilegePasses(s: Stores, user: string, id: string, member: string) {
    && Points(s, user, id) && id in s.orgs && HasAdmin(s.orgs[id].members, user)
    && !IsLastAdmin(s.orgs[id].members, member) && Listed(s.orgs[id].members, member)
  }

  predicate AllWritten(c: Calls) {
    c.adminRole && c.editRole && c.orgWrite
  }

  /** When a request keeps the bindings of `id` matching: which role it sent or lost, and whether the change
      touches that role. */
  predicate KeepsRoles(s: Stores, r: Request, c: Calls, id: string)
    requires id in s.orgs
  {
    var ms := s.orgs[id].members;
    match r
    case SignUpRequest(_, _, _) => true
    case AcceptRequest(_, _, _) => true
    case LeaveRequest(user, org) => !(org == id && LeavePasses(s, user, id) && c.orgWrite)
    case DeleteRequest(user, org) =>
      !(org == id && DeletePasses(s, user, id) && c.project && c.profileWrite && c.orgDelete)
    case CreateRequest(user, name, body, suffix, now) =>
      OrgID(user, suffix) == id && CreatePasses(s, user, name) && c.project && c.orgWrite ==>
        var after := body + [OrgMember(user, true, user, now, Joined)];
        RoleNames(after, true) == RoleNames(ms, true) && RoleNames(after, false) == RoleNames(ms, false)
    case InviteRequest(user, org, member) =>
      org == id && InvitePasses(s, user, id, member) ==>
        AllWritten(c) || (RoleStands(c.adminRole, c.adminGone, member.isAdmin)
                          && RoleStands(c.editRole, c.editGone, !member.isAdmin))
    case RemoveRequest(user, org, member) =>
      org == id && RemovePasses(s, user, id, member) && c.orgWrite ==>
        && RoleFollows(c.adminRole, c.adminGone, HasAdmin(ms, member))
        && RoleFollows(c.editRole, c.editGone, !HasAdmin(ms, member))
    case PrivilegeRequest(user, org, member, isAdmin) =>
      org == id && PrivilegePasses(s, user, id, member) ==>
        var changes := HasAdmin(ms, member) != isAdmin;
        AllWritten(c) || (RoleStands(c.adminRole, c.adminGone, changes) && RoleStands(c.editRole, c.editGone, changes))
  }

  /** Nothing about the organisation changes. */
  lemma {:induction false} SameRoles(s: Stores, t: Stores, id: string)
    requires InForce(s, id) && id in t.orgs && t.orgs[id].members == s.orgs[id].members
    requires id in t.adminRoles && t.adminRoles[id] == s.adminRoles[id]
    requires id in t.editRoles && t.editRoles[id] == s.editRoles[id]
    ensures InForce(t, id)
  {
  }

  lemma {:induction false} LeaveInForceIff(s: Stores, user: string, org: string, c: Calls, id: string)
    requires Inv(s) && InForce(s, id)
    ensures InForce(Leave(s, user, org, c).stores, id) <==> KeepsRoles(s, LeaveRequest(user, org), c, id)
  {
    assert forall o :: o in s.orgs ==> GoodOrg(s.orgs[o], o);
    if LeavePasses(s, user, org) && c.orgWrite && org == id {
      var ms := s.orgs[id].members;
      assert Points(s, user, id) <==> JoinedIn(s, user, id);
      HasJoinedListed(ms, user);
      DistinctSweep(ms, user);
      OneKind(ms, user);
      NamesAfterWithout(ms, user, true);
      NamesAfterWithout(ms, user, false);
    } else {
      SameRoles(s, Leave(s, user, org, c).stores, id);
    }
  }

  lemma {:induction false} DeleteInForceIff(s: Stores, user: string, org: string, c: Calls, id: string)
    requires Inv(s) && InForce(s, id)
    ensures InForce(Delete(s, user, org, c).stores, id) <==> KeepsRoles(s, DeleteRequest(user, org), c, id)
  {
    assert forall o :: o in s.orgs ==> GoodOrg(s.orgs[o], o);
    if DeletePasses(s, user, org) && c.project && c.profileWrite && c.orgDelete && org == id {
      CreatorIsKnown(s, id);
    } else {
      SameRoles(s, Delete(s, user, org, c).stores, id);
    }
  }

  lemma {:induction false} AcceptInForce(s: Stores, user: string, org: string, now: string, c: Calls, id: string)
    requires Inv(s) && InForce(s, id)
    ensures InForce(Accept(s, user, org, now, c).stores, id)
  {
    assert forall o :: o in s.orgs ==> GoodOrg(s.orgs[o], o);
    var ms := s.orgs[id].members;
    SameKinds(WithJoined(ms, user, now), ms, true);
    SameKinds(WithJoined(ms, user, now), ms, false);
  }

  lemma {:induction false} CreateInForceIff(s: Stores, user: string, name: string, body: Members, suffix: string,
                                            now: string, c: Calls, id: string)
    requires Inv(s) && InForce(s, id)
    ensures InForce(Create(s, user, name, body, suffix, now, c).stores, id)
       <==> KeepsRoles(s, CreateRequest(user, name, body, suffix, now), c, id)
  {
    if !(OrgID(user, suffix) == id && CreatePasses(s, user, name) && c.project && c.orgWrite) {
      SameRoles(s, Create(s, user, name, body, suffix, now, c).stores, id);
    }
  }

  lemma {:induction false} SignUpInForce(s: Stores, user: string, details: Credentials, body: Profile, c: Calls,
                                         id: string)
    requires InForce(s, id)
    ensures InForce(SignUp(s, user, details, body, c).stores, id)
  {
    SameRoles(s, SignUp(s, user, details, body, c).stores, id);
  }

  /** Roles sent for a changed list that is stored only when all goes well. */
  function SentAhead(s: Stores, org: OrgRecord, c: Calls): Stores {
    if AllWritten(c) then PutOrg(SendRoles(s, org, c), org) else SendRoles(s, org, c)
  }

  lemma {:induction false} SentAheadIff(s: Stores, org: OrgRecord, c: Calls, id: string)
    requires InForce(s, id) && org.id == id
    ensures InForce(SentAhead(s, org, c), id)
       <==> || AllWritten(c)
            || (&& RoleStands(c.adminRole, c.adminGone,
                              RoleNames(org.members, true) != RoleNames(s.orgs[id].members, true))
                && RoleStands(c.editRole, c.editGone,
                              RoleNames(org.members, false) != RoleNames(s.orgs[id].members, false)))
  {
  }

  lemma {:induction false} SentElsewhere(s: Stores, org: OrgRecord, c: Calls, id: string)
    requires InForce(s, id) && org.id != id
    ensures InForce(SentAhead(s, org, c), id)
  {
  }

  /** Roles sent for the list that is stored by now. */
  lemma {:induction false} SentBehindIff(s: Stores, t: Stores, org: OrgRecord, c: Calls, id: string)
    requires InForce(s, id) && org.id == id && id in t.orgs && t.orgs[id] == org
    requires t.adminRoles == SendRoles(s, org, c).adminRoles && t.editRoles == SendRoles(s, org, c).editRoles
    ensures InForce(t, id)
       <==> && RoleFollows(c.adminRole, c.adminGone,
                           RoleNames(org.members, true) != RoleNames(s.orgs[id].members, true))
            && RoleFollows(c.editRole, c.editGone,
                           RoleNames(org.members, false) != RoleNames(s.orgs[id].members, false))
  {
  }

  function Invitation(user: string, member: OrgMember): OrgMember {
    member.(status := Invited, privilegedBy := if member.isAdmin then user else member.privilegedBy)
  }

  lemma {:induction false} InviteWrites(s: Stores, user: string, org: string, member: OrgMember, c: Calls)
    requires Points(s, user, org)
    ensures Invite(s, user, org, member, c).stores
         == if InvitePasses(s, user, org, member)
            then SentAhead(s, s.orgs[org].(members := s.orgs[org].members + [Invitation(user, member)]), c) else s
  {
  }

  lemma {:induction false} InviteInForceIff(s: Stores, user: string, org: string, member: OrgMember, c: Calls,
                                            id: string)
    requires Inv(s) && InForce(s, id)
    ensures InForce(Invite(s, user, org, member, c).stores, id)
       <==> KeepsRoles(s, InviteRequest(user, org, member), c, id)
  {
    if InvitePasses(s, user, org, member) {
      InviteWrites(s, user, org, member, c);
      assert GoodOrg(s.orgs[org], org);
      var m, ms := Invitation(user, member), s.orgs[org].members;
      var after := s.orgs[org].(members := ms + [m]);
      if org == id {
        NamesAfterAppend(ms, m, true);
        NamesAfterAppend(ms, m, false);
        SentAheadIff(s, after, c, id);
      } else {
        SentElsewhere(s, after, c, id);
      }
    } else if Points(s, user, org) {
      InviteWrites(s, user, org, member, c);
    }
  }

  /** The record a privilege change makes. */
  function Privileged(org: OrgRecord, user: string, member: string, isAdmin: bool): OrgRecord {
    org.(members := WithPrivilege(org.members, member, isAdmin, user))
  }

  lemma {:induction false} PrivilegeWrites(s: Stores, user: string, org: string, member: string, isAdmin: bool,
                                           c: Calls)
    ensures Privilege(s, user, org, member, isAdmin, c).stores
         == if PrivilegePasses(s, user, org, member)
            then SentAhead(s, Privileged(s.orgs[org], user, member, isAdmin), c) else s
  {
  }

  lemma {:induction false} PrivilegeAheadIff(s: Stores, user: string, member: string, isAdmin: bool, c: Calls,
                                             id: string)
    requires InForce(s, id) && s.orgs[id].id == id
    requires DistinctNames(s.orgs[id].members) && Listed(s.orgs[id].members, member)
    ensures var changes := HasAdmin(s.orgs[id].members, member) != isAdmin;
      InForce(SentAhead(s, Privileged(s.orgs[id], user, member, isAdmin), c), id)
      <==> || AllWritten(c)
           || (RoleStands(c.adminRole, c.adminGone, changes) && RoleStands(c.editRole, c.editGone, changes))
  {
    var ms := s.orgs[id].members;
    NamesAfterPrivilege(ms, member, isAdmin, user, true);
    NamesAfterPrivilege(ms, member, isAdmin, user, false);
    SentAheadIff(s, Privileged(s.orgs[id], user, member, isAdmin), c, id);
  }

  lemma {:induction false} PrivilegeInForceIff(s: Stores, user: string, org: string, member: string, isAdmin: bool,
                                               c: Calls, id: string)
    requires Inv(s) && InForce(s, id)
    ensures InForce(Privilege(s, user, org, member, isAdmin, c).stores, id)
       <==> KeepsRoles(s, PrivilegeRequest(user, org, member, isAdmin), c, id)
  {
    PrivilegeWrites(s, user, org, member, isAdmin, c);
    PrivilegedIff(s, Privilege(s, user, org, member, isAdmin, c).stores, user, org, member, isAdmin, c, id);
  }

  lemma {:induction false} PrivilegedIff(s: Stores, t: Stores, user: string, org: string, member: string, isAdmin: bool,
                                         c: Calls, id: string)
    requires Inv(s) && InForce(s, id)
    requires t == if PrivilegePasses(s, user, org, member)
      then SentAhead(s, Privileged(s.orgs[org], user, member, isAdmin), c) else s
    ensures InForce(t, id) <==> KeepsRoles(s, PrivilegeRequest(user, org, member, isAdmin), c, id)
  {
    if PrivilegePasses(s, user, org, member) {
      assert GoodOrg(s.orgs[org], org);
      if org == id {
        PrivilegeAheadIff(s, user, member, isAdmin, c, id);
      } else {
        SentElsewhere(s, Privileged(s.orgs[org], user, member, isAdmin), c, id);
      }
    }
  }

  lemma {:induction false} RemoveInForceIff(s: Stores, user: string, org: string, member: string, c: Calls, id: string)
    requires Inv(s) && InForce(s, id)
    ensures InForce(Remove(s, user, org, member, c).stores, id)
       <==> KeepsRoles(s, RemoveRequest(user, org, member), c, id)
  {
    var t := Remove(s, user, org, member, c).stores;
    if !(RemovePasses(s, user, org, member) && c.orgWrite) {
      RemoveStops(s, user, org, member, c);
    } else {
      var before := s.orgs[org];
      assert GoodOrg(before, org);
      DistinctSweep(before.members, member);
      var after := before.(members := Without(before.members, member));
      if org == id {
        OneKind(before.members, member);
        NamesAfterWithout(before.members, member, true);
        NamesAfterWithout(before.members, member, false);
        SentBehindIff(s, t, after, c, id);
      } else {
        SameRoles(s, t, id);
      }
    }
  }

  /** For each request and all answers to its calls: bindings that match still match after it exactly when
      `KeepsRoles` says so. */
  lemma {:induction false} StepKeepsRolesIff(s: Stores, r: Request, c: Calls, id: string)
    requires Inv(s) && RolesMatch(s, id)
    ensures RolesMatch(Step(s, r, c).stores, id) <==> KeepsRoles(s, r, c, id)
  {
    MatchIffInForce(s, id);
    MatchIffInForce(Step(s, r, c).stores, id);
    match r
    case SignUpRequest(user, details, profile) => SignUpInForce(s, user, details, profile, c, id);
    case CreateRequest(user, name, body, suffix, now) => CreateInForceIff(s, user, name, body, suffix, now, c, id);
    case DeleteRequest(user, org) => DeleteInForceIff(s, user, org, c, id);
    case AcceptRequest(user, org, now) => AcceptInForce(s, user, org, now, c, id);
    case LeaveRequest(user, org) => LeaveInForceIff(s, user, org, c, id);
    case InviteRequest(user, org, member) => InviteInForceIff(s, user, org, member, c, id);
    case RemoveRequest(user, org, member) => RemoveInForceIff(s, user, org, member, c, id);
    case PrivilegeRequest(user, org, member, isAdmin) => PrivilegeInForceIff(s, user, org, member, isAdmin, c, id);
  }

  /** Leave refreshes nothing: cut short or whole, it leaves matching bindings behind stale exactly when it
      writes the organisation. */
  lemma {:induction false} LeaveStalesRolesIff(s: Stores, user: string, id: string, c: Calls)
    requires Inv(s) && RolesMatch(s, id)
    ensures !RolesMatch(Leave(s, user, id, c).stores, id) <==> LeavePasses(s, user, id) && c.orgWrite
  {
    StepKeepsRolesIff(s, LeaveRequest(user, id), c, id);
  }

  // ----- over runs -----

  ghost predicate MatchThroughout(s: Stores, rs: Requests, id: string)
    decreases rs
  {
    RolesMatch(s, id) && (rs == [] || MatchThroughout(Step(s, rs[0].0, rs[0].1).stores, rs[1..], id))
  }

  ghost predicate RunKeepsRoles(s: Stores, rs: Requests, id: string)
    decreases rs
  {
    rs == [] || (&& id in s.orgs && KeepsRoles(s, rs[0].0, rs[0].1, id)
                 && RunKeepsRoles(Step(s, rs[0].0, rs[0].1).stores, rs[1..], id))
  }

  /** Bindings that match go on matching throughout a clean run exactly when each of its requests keeps them. */
  lemma {:induction false} RunKeepsRolesIff(s: Stores, rs: Requests, id: string)
    requires Inv(s) && CleanRun(s, rs) && RolesMatch(s, id)
    ensures MatchThroughout(s, rs, id) <==> RunKeepsRoles(s, rs, id)
    decreases rs
  {
    if rs != [] {
      var r, c := rs[0].0, rs[0].1;
      StepKeepsIff(s, r, c);
      StepKeepsRolesIff(s, r, c, id);
      if RolesMatch(Step(s, r, c).stores, id) {
        RunKeepsRolesIff(Step(s, r, c).stores, rs[1..], id);
      }
    }
  }
}
