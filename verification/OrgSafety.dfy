/** What holds in both stores over whole runs of requests. */
module OrgSafety {
  import opened Membership
  import opened Organization
  import opened Validation
  import opened OrgStores
  import opened Wrappers

  // ----- the invariant -----

  /** The user's profile points at the organisation. */
  predicate Points(s: Stores, user: string, id: string) {
    user in s.profiles && HasID(s.profiles[user].orgList, id)
  }

  /** The organisation is stored and the user is one of its joined members. */
  predicate JoinedIn(s: Stores, user: string, id: string) {
    id in s.orgs && HasJoined(s.orgs[id].members, user)
  }

  ghost predicate Agreement(s: Stores) {
    forall user, id :: Points(s, user, id) <==> JoinedIn(s, user, id)
  }

  predicate GoodOrg(org: OrgRecord, id: string) {
    org.id == id && DistinctNames(org.members) && SomeJoinedAdmin(org.members)
  }

  ghost predicate GoodOrgs(s: Stores) {
    forall id :: id in s.orgs ==> GoodOrg(s.orgs[id], id)
  }

  predicate DistinctIDs(list: seq<OrgBrief>) {
    forall i, j :: 0 <= i < j < |list| ==> list[i].orgID != list[j].orgID
  }

  ghost predicate GoodLists(s: Stores) {
    forall user :: user in s.profiles ==> DistinctIDs(s.profiles[user].orgList)
  }

  function Owned(orgs: map<string, OrgRecord>, user: string): set<string> {
    set id | id in orgs && orgs[id].createBy == user
  }

  function Used(s: Stores, user: string): int {
    if user in s.profiles then s.profiles[user].orgUsed else 0
  }

  ghost predicate Quotas(s: Stores) {
    && (forall user :: Used(s, user) == |Owned(s.orgs, user)|)
    && (forall user :: user in s.profiles ==> 0 <= s.profiles[user].orgUsed <= MAX_ORGS)
  }

  /** An entry bears the name of the organisation it stands for. */
  predicate LabelsFit(list: seq<OrgBrief>, orgs: map<string, OrgRecord>) {
    forall b :: b in list && b.orgID in orgs ==> b.orgName == orgs[b.orgID].name
  }

  ghost predicate Labels(s: Stores) {
    forall user :: user in s.profiles ==> LabelsFit(s.profiles[user].orgList, s.orgs)
  }

  ghost predicate Inv(s: Stores) {
    GoodOrgs(s) && GoodLists(s) && Agreement(s) && Quotas(s) && Labels(s)
  }

  // ----- requests and runs -----

  datatype Request =
    | SignUpRequest(user: string, details: Credentials, profile: Profile)
    | CreateRequest(user: string, name: string, body: Members, suffix: string, now: string)
    | DeleteRequest(user: string, id: string)
    | AcceptRequest(user: string, id: string, now: string)
    | LeaveRequest(user: string, id: string)
    | InviteRequest(user: string, id: string, member: OrgMember)
    | RemoveRequest(user: string, id: string, memberName: string)
    | PrivilegeRequest(user: string, id: string, memberName: string, isAdmin: bool)

  function Step(s: Stores, r: Request, c: Calls): Reply {
    match r
    case SignUpRequest(user, details, profile) => SignUp(s, user, details, profile, c)
    case CreateRequest(user, name, body, suffix, now) => Create(s, user, name, body, suffix, now, c)
    case DeleteRequest(user, id) => Delete(s, user, id, c)
    case AcceptRequest(user, id, now) => Accept(s, user, id, now, c)
    case LeaveRequest(user, id) => Leave(s, user, id, c)
    case InviteRequest(user, id, member) => Invite(s, user, id, member, c)
    case RemoveRequest(user, id, memberName) => Remove(s, user, id, memberName, c)
    case PrivilegeRequest(user, id, memberName, isAdmin) => Privilege(s, user, id, memberName, isAdmin, c)
  }

  /** The members a create request may bring in its body without upsetting the stores. */
  predicate CleanBody(body: Members, user: string) {
    && DistinctNames(body)
    && !Listed(body, user)
    && forall i :: 0 <= i < |body| ==> body[i].status != Joined
  }

  // What each request must get past before it writes anything.

  predicate SignUpPasses(s: Stores, user: string, details: Credentials) {
    ValidateUserName(user) && details.Fit() && user !in s.profiles
  }

  predicate CreatePasses(s: Stores, user: string, name: string) {
    && user in s.profiles && |name| >= 2
    && !HasName(s.profiles[user].orgList, name)
    && s.profiles[user].orgUsed < MAX_ORGS
  }

  predicate DeletePasses(s: Stores, user: string, id: string) {
    Points(s, user, id) && id in s.orgs && HasAdmin(s.orgs[id].members, user) && JoinedCount(s.orgs[id].members) <= 1
  }

  predicate AcceptPasses(s: Stores, user: string, id: string) {
    user in s.profiles && id in s.orgs
  }

  predicate LeavePasses(s: Stores, user: string, id: string) {
    Points(s, user, id) && id in s.orgs && !IsLastAdmin(s.orgs[id].members, user)
  }

  predicate RemovePasses(s: Stores, user: string, id: string, member: string) {
    && Points(s, user, id) && user != member
    && id in s.orgs && HasAdmin(s.orgs[id].members, user) && Listed(s.orgs[id].members, member)
  }

  /** What must be so for a request whose calls are answered by `c` to do no harm. With every call
      answered well it asks something of three requests only; the rest is about which call may fail. */
  ghost predicate Clean(s: Stores, r: Request, c: Calls) {
    match r
    case SignUpRequest(user, details, profile) =>
      SignUpPasses(s, user, details) && c.ldap && c.profileWrite ==> profile == Profile([], 0)
    case CreateRequest(user, name, body, suffix, now) =>
      CreatePasses(s, user, name) && c.project && c.orgWrite ==>
        c.profileWrite && OrgID(user, suffix) !in s.orgs && CleanBody(body, user)
    case DeleteRequest(user, id) =>
      DeletePasses(s, user, id) && c.project && c.profileWrite ==> c.creatorWrite && c.orgDelete
    case AcceptRequest(user, id, now) =>
      AcceptPasses(s, user, id) && c.orgWrite ==>
        if c.profileWrite then Listed(s.orgs[id].members, user)
        else !Listed(s.orgs[id].members, user) || HasJoined(s.orgs[id].members, user)
    case LeaveRequest(user, id) =>
      LeavePasses(s, user, id) && c.orgWrite ==> c.profileWrite
    case RemoveRequest(user, id, memberName) =>
      RemovePasses(s, user, id, memberName) && c.orgWrite && HasJoined(s.orgs[id].members, memberName) ==>
        c.adminRole && c.editRole && c.profileWrite
    case InviteRequest(_, _, _) => true
    case PrivilegeRequest(_, _, _, _) => true
  }

  // ----- small facts -----

  lemma {:induction false} DropIDMeaning(list: seq<OrgBrief>, id: string, other: string)
    requires DistinctIDs(list)
    ensures DistinctIDs(DropID(list, id))
    ensures HasID(DropID(list, id), other) <==> HasID(list, other) && other != id
  {
    if list != [] {
      var rest := list[1..];
      assert list == [list[0]] + rest;
      forall i | 0 <= i < |rest| ensures rest[i].orgID != list[0].orgID {
        assert rest[i] == list[i + 1];
      }
      if list[0].orgID == id {
        HasIDCons(list[0], rest, other);
      } else {
        DropIDMeaning(rest, id, other);
        DropIDMeaning(rest, id, list[0].orgID);
        HasIDCons(list[0], rest, other);
        HasIDCons(list[0], DropID(rest, id), other);
        assert !HasID(DropID(rest, id), list[0].orgID);
      }
    }
  }

  lemma {:induction false} HasIDCons(b: OrgBrief, list: seq<OrgBrief>, id: string)
    ensures HasID([b] + list, id) <==> b.orgID == id || HasID(list, id)
  {
    var all := [b] + list;
    if HasID(list, id) {
      var i :| 0 <= i < |list| && list[i].orgID == id;
      assert all[i + 1].orgID == id;
    }
    assert all[0] == b;
  }

  lemma {:induction false} HasIDAppend(list: seq<OrgBrief>, b: OrgBrief, id: string)
    ensures HasID(list + [b], id) <==> HasID(list, id) || b.orgID == id
  {
    var all := list + [b];
    if HasID(list, id) {
      var i :| 0 <= i < |list| && list[i].orgID == id;
      assert all[i].orgID == id;
    }
    assert all[|list|] == b;
  }

  lemma {:induction false} JoinedAppend(ms: Members, m: OrgMember, user: string)
    ensures HasJoined(ms + [m], user) <==> HasJoined(ms, user) || (m.memberName == user && m.status == Joined)
  {
    var all := ms + [m];
    if HasJoined(ms, user) {
      var i :| 0 <= i < |ms| && ms[i].memberName == user && ms[i].status == Joined;
      assert all[i] == ms[i];
    }
    assert all[|ms|] == m;
  }

  lemma {:induction false} JoinedWithout(ms: Members, gone: string, user: string)
    ensures HasJoined(Without(ms, gone), user) <==> HasJoined(ms, user) && user != gone
  {
    var rest := Without(ms, gone);
    if HasJoined(rest, user) {
      var i :| 0 <= i < |rest| && rest[i].memberName == user && rest[i].status == Joined;
      WithoutMembers(ms, gone, rest[i]);
    }
    if HasJoined(ms, user) && user != gone {
      var i :| 0 <= i < |ms| && ms[i].memberName == user && ms[i].status == Joined;
      WithoutMembers(ms, gone, ms[i]);
    }
  }

  lemma {:induction false} AdminStays(ms: Members, gone: string, i: int)
    requires 0 <= i < |ms| && JoinedAdmin(ms[i]) && ms[i].memberName != gone
    ensures SomeJoinedAdmin(Without(ms, gone))
  {
    WithoutMembers(ms, gone, ms[i]);
    var rest := Without(ms, gone);
    var k :| 0 <= k < |rest| && rest[k] == ms[i];
    assert JoinedAdmin(rest[k]);
  }

  /** The entry of a joined member; by distinct names it is the entry of the acting admin too. */
  lemma {:induction false} ActingAdminIsJoined(s: Stores, user: string, id: string) returns (i: int)
    requires Inv(s) && Points(s, user, id) && HasAdmin(s.orgs[id].members, user)
    ensures 0 <= i < |s.orgs[id].members|
    ensures s.orgs[id].members[i].memberName == user && JoinedAdmin(s.orgs[id].members[i])
  {
    assert JoinedIn(s, user, id);
    var ms := s.orgs[id].members;
    assert GoodOrg(s.orgs[id], id);
    i :| 0 <= i < |ms| && ms[i].memberName == user && ms[i].status == Joined;
    var j :| 0 <= j < |ms| && ms[j].memberName == user && ms[j].isAdmin;
  }

  // ----- owned organisations -----

  lemma {:induction false} OwnedAfterInsert(orgs: map<string, OrgRecord>, id: string, org: OrgRecord, user: string)
    requires id !in orgs
    ensures |Owned(orgs[id := org], user)| == |Owned(orgs, user)| + if user == org.createBy then 1 else 0
  {
    assert Owned(orgs[id := org], user) == Owned(orgs, user) + if user == org.createBy then {id} else {};
  }

  lemma {:induction false} OwnedAfterRewrite(orgs: map<string, OrgRecord>, id: string, org: OrgRecord, user: string)
    requires id in orgs && orgs[id].createBy == org.createBy
    ensures Owned(orgs[id := org], user) == Owned(orgs, user)
  {
    forall k ensures k in Owned(orgs[id := org], user) <==> k in Owned(orgs, user) {}
  }

  lemma {:induction false} OwnedAfterDelete(orgs: map<string, OrgRecord>, id: string, user: string)
    requires id in orgs
    ensures |Owned(orgs - {id}, user)| == |Owned(orgs, user)| - if user == orgs[id].createBy then 1 else 0
  {
    assert Owned(orgs - {id}, user) == Owned(orgs, user) - if user == orgs[id].createBy then {id} else {};
  }

  // ----- one request at a time -----

  /** A list that has gained nothing but, perhaps, a fitting entry, over organisations of the same names. */
  predicate Relabels(s: Stores, t: Stores, user: string)
    requires user in s.profiles && user in t.profiles
  {
    forall b :: b in t.profiles[user].orgList ==>
      || (b in s.profiles[user].orgList && (b.orgID in t.orgs ==> b.orgID in s.orgs))
      || (b.orgID in t.orgs && b.orgName == t.orgs[b.orgID].name)
  }

  lemma {:induction false} LabelsStay(s: Stores, t: Stores)
    requires Labels(s) && t.profiles.Keys == s.profiles.Keys
    requires forall id :: id in s.orgs && id in t.orgs ==> t.orgs[id].name == s.orgs[id].name
    requires forall user :: user in s.profiles ==> Relabels(s, t, user)
    ensures Labels(t)
  {
    forall user | user in t.profiles ensures LabelsFit(t.profiles[user].orgList, t.orgs) {
      assert LabelsFit(s.profiles[user].orgList, s.orgs) && Relabels(s, t, user);
    }
  }

  lemma {:induction false} DropIDSubset(list: seq<OrgBrief>, id: string)
    ensures forall b :: b in DropID(list, id) ==> b in list
  {
    if list != [] {
      DropIDSubset(list[1..], id);
      assert list == [list[0]] + list[1..];
    }
  }

  /** Changing one organisation's members, with at most one profile's list following. */
  lemma {:induction false} KeepsByRewrite(s: Stores, t: Stores, org: OrgRecord, user: string)
    requires Inv(s) && org.id in s.orgs && org.createBy == s.orgs[org.id].createBy
    requires GoodOrg(org, org.id)
    requires t.orgs == s.orgs[org.id := org]
    requires t.profiles.Keys == s.profiles.Keys
    requires forall u :: u in s.profiles && u != user ==> t.profiles[u] == s.profiles[u]
    requires user in s.profiles ==>
      t.profiles[user].orgUsed == s.profiles[user].orgUsed && DistinctIDs(t.profiles[user].orgList)
    requires forall id :: id != org.id ==> (Points(t, user, id) <==> Points(s, user, id))
    requires Points(t, user, org.id) <==> HasJoined(org.members, user)
    requires forall u :: u != user ==> (HasJoined(org.members, u) <==> HasJoined(s.orgs[org.id].members, u))
    requires org.name == s.orgs[org.id].name
    requires user in s.profiles ==> forall b :: b in t.profiles[user].orgList ==>
      b in s.profiles[user].orgList || b == OrgBrief(org.id, org.name)
    ensures Inv(t)
  {
    LabelsStay(s, t);
    forall u, id ensures Points(t, u, id) <==> JoinedIn(t, u, id) {
      assert Points(s, u, id) <==> JoinedIn(s, u, id);
    }
    forall u ensures Used(t, u) == |Owned(t.orgs, u)| {
      OwnedAfterRewrite(s.orgs, org.id, org, u);
      assert Used(s, u) == |Owned(s.orgs, u)|;
    }
    assert GoodLists(t);
  }

  lemma {:induction false} SignUpKeepsIff(s: Stores, user: string, details: Credentials, body: Profile, c: Calls)
    requires Inv(s)
    ensures Inv(SignUp(s, user, details, body, c).stores) <==> Clean(s, SignUpRequest(user, details, body), c)
    ensures SignUp(s, user, details, body, c).outcome != Crashed
  {
    var reply := SignUp(s, user, details, body, c);
    var t := reply.stores;
    if reply.outcome == Done {
      assert Used(s, user) == |Owned(s.orgs, user)| == 0;
      if body == Profile([], 0) {
        forall u, id ensures Points(t, u, id) <==> JoinedIn(t, u, id) {
          assert Points(s, u, id) <==> JoinedIn(s, u, id);
        }
        forall u ensures Used(t, u) == |Owned(t.orgs, u)| {
          assert Used(s, u) == |Owned(s.orgs, u)|;
        }
      } else if body.orgUsed != 0 {
        assert Used(t, user) != |Owned(t.orgs, user)|;
      } else {
        var id := body.orgList[0].orgID;
        assert HasID(body.orgList, id) && Points(t, user, id);
        assert Points(s, user, id) <==> JoinedIn(s, user, id);
      }
    }
  }

  lemma {:induction false} CreateKeepsIff(s: Stores, user: string, name: string, body: Members, suffix: string,
                                          now: string, c: Calls)
    requires Inv(s)
    ensures Inv(Create(s, user, name, body, suffix, now, c).stores)
       <==> Clean(s, CreateRequest(user, name, body, suffix, now), c)
    ensures Create(s, user, name, body, suffix, now, c).outcome != Crashed
  {
    var id := OrgID(user, suffix);
    if CreatePasses(s, user, name) && c.project && c.orgWrite {
      if !c.profileWrite {
        HalfCreateBreaks(s, user, name, body, suffix, now, c);
      } else {
        assert Create(s, user, name, body, suffix, now, c) == Create(s, user, name, body, suffix, now, ALL_WELL);
        if id !in s.orgs && CleanBody(body, user) {
          CreateKeeps(s, user, name, body, suffix, now);
        } else if id in s.orgs {
          CollisionBreaksQuota(s, user, name, body, suffix, now);
        } else {
          DirtyBodyBreaks(s, user, name, body, suffix, now);
        }
      }
    }
  }

  /** A create whose profile write fails always breaks something: the quota, or, when it has overwritten an
      organisation of the same creator, the agreement or the name that creator's list has for it. */
  lemma {:induction false} HalfCreateBreaks(s: Stores, user: string, name: string, body: Members, suffix: string,
                                            now: string, c: Calls)
    requires Inv(s) && CreatePasses(s, user, name) && c.project && c.orgWrite && !c.profileWrite
    ensures !Inv(Create(s, user, name, body, suffix, now, c).stores)
  {
    var t := Create(s, user, name, body, suffix, now, c).stores;
    var id := OrgID(user, suffix);
    assert Used(s, user) == |Owned(s.orgs, user)|;
    if id !in s.orgs {
      OwnedAfterInsert(s.orgs, id, t.orgs[id], user);
      assert Used(t, user) != |Owned(t.orgs, user)|;
    } else if s.orgs[id].createBy != user {
      var before := s.orgs[id].createBy;
      assert Used(s, before) == |Owned(s.orgs, before)|;
      assert id in Owned(s.orgs, before) && Owned(t.orgs, before) == Owned(s.orgs, before) - {id};
      assert Used(t, before) != |Owned(t.orgs, before)|;
    } else {
      var ms := t.orgs[id].members;
      assert ms[|body|] == OrgMember(user, true, user, now, Joined);
      OverwrittenBreaks(s, t, user, id, name);
    }
  }

  lemma {:induction false} OverwrittenBreaks(s: Stores, t: Stores, user: string, id: string, name: string)
    requires Inv(s) && user in s.profiles && !HasName(s.profiles[user].orgList, name)
    requires id in s.orgs && id in t.orgs && t.profiles == s.profiles
    requires t.orgs[id].name == name && HasJoined(t.orgs[id].members, user)
    ensures !(Agreement(t) && Labels(t))
  {
    if Agreement(t) {
      assert JoinedIn(t, user, id) && Points(t, user, id);
      var list := s.profiles[user].orgList;
      var i :| 0 <= i < |list| && list[i].orgID == id;
      assert LabelsFit(list, s.orgs) && list[i] in list && list[i].orgName != name;
      assert !LabelsFit(t.profiles[user].orgList, t.orgs);
    }
  }

  lemma {:induction false} UnpointedID(s: Stores, id: string)
    requires Inv(s) && id !in s.orgs
    ensures forall user :: user in s.profiles ==> forall b :: b in s.profiles[user].orgList ==> b.orgID != id
  {
    forall user | user in s.profiles ensures forall b :: b in s.profiles[user].orgList ==> b.orgID != id {
      assert !Points(s, user, id) by { assert !JoinedIn(s, user, id); }
    }
  }

  lemma {:induction false} CreateLabels(s: Stores, user: string, name: string, body: Members, suffix: string,
                                        now: string)
    requires Inv(s) && OrgID(user, suffix) !in s.orgs
    requires Create(s, user, name, body, suffix, now, ALL_WELL).outcome == Done
    ensures Labels(Create(s, user, name, body, suffix, now, ALL_WELL).stores)
  {
    UnpointedID(s, OrgID(user, suffix));
    LabelsStay(s, Create(s, user, name, body, suffix, now, ALL_WELL).stores);
  }

  lemma {:induction false} CreateKeeps(s: Stores, user: string, name: string, body: Members, suffix: string,
                                       now: string)
    requires Inv(s)
    requires Create(s, user, name, body, suffix, now, ALL_WELL).outcome == Done
    requires OrgID(user, suffix) !in s.orgs && CleanBody(body, user)
    ensures Inv(Create(s, user, name, body, suffix, now, ALL_WELL).stores)
  {
    var t := Create(s, user, name, body, suffix, now, ALL_WELL).stores;
    var id := OrgID(user, suffix);
    var creator := OrgMember(user, true, user, now, Joined);
    var org, p := t.orgs[id], s.profiles[user];
    assert org.members[|body|] == creator && JoinedAdmin(creator);
    assert GoodOrg(org, id);
    assert !Points(s, user, id) by { assert !JoinedIn(s, user, id); }
    assert GoodLists(t);
    CreateLabels(s, user, name, body, suffix, now);
    forall u, other ensures Points(t, u, other) <==> JoinedIn(t, u, other) {
      assert Points(s, u, other) <==> JoinedIn(s, u, other);
      HasIDAppend(p.orgList, OrgBrief(id, name), other);
      JoinedAppend(body, creator, u);
    }
    forall u ensures Used(t, u) == |Owned(t.orgs, u)| {
      OwnedAfterInsert(s.orgs, id, org, u);
      assert Used(s, u) == |Owned(s.orgs, u)|;
    }
  }

  /** A second organisation under a stored id upsets the quota of whoever owned the first. */
  lemma {:induction false} CollisionBreaksQuota(s: Stores, user: string, name: string, body: Members, suffix: string,
                                                now: string)
    requires Quotas(s)
    requires Create(s, user, name, body, suffix, now, ALL_WELL).outcome == Done
    requires OrgID(user, suffix) in s.orgs
    ensures !Quotas(Create(s, user, name, body, suffix, now, ALL_WELL).stores)
  {
    var t := Create(s, user, name, body, suffix, now, ALL_WELL).stores;
    var id := OrgID(user, suffix);
    var before := s.orgs[id].createBy;
    assert Used(s, before) == |Owned(s.orgs, before)|;
    if before == user {
      OwnedAfterRewrite(s.orgs, id, t.orgs[id], user);
      assert Used(t, before) == |Owned(t.orgs, before)| + 1;
    } else {
      assert Owned(t.orgs, before) == Owned(s.orgs, before) - {id};
      assert Used(t, before) == |Owned(t.orgs, before)| + 1;
    }
  }

  /** A body that names the creator, names someone twice or claims a joined member breaks the record
      or the agreement. */
  lemma {:induction false} DirtyBodyBreaks(s: Stores, user: string, name: string, body: Members, suffix: string,
                                           now: string)
    requires Agreement(s)
    requires Create(s, user, name, body, suffix, now, ALL_WELL).outcome == Done
    requires OrgID(user, suffix) !in s.orgs && !CleanBody(body, user)
    ensures var t := Create(s, user, name, body, suffix, now, ALL_WELL).stores; !(GoodOrgs(t) && Agreement(t))
  {
    var t := Create(s, user, name, body, suffix, now, ALL_WELL).stores;
    var id := OrgID(user, suffix);
    var ms := t.orgs[id].members;
    assert forall i :: 0 <= i < |body| ==> ms[i] == body[i];
    assert ms[|body|].memberName == user;
    if DistinctNames(body) && !Listed(body, user) {
      var i :| 0 <= i < |body| && body[i].status == Joined;
      var u := body[i].memberName;
      assert ms[i] == body[i] && JoinedIn(t, u, id);
      assert !JoinedIn(s, u, id) && !Points(s, u, id);
      assert !Points(t, u, id);
    } else {
      assert !DistinctNames(ms);
      assert !GoodOrg(t.orgs[id], id);
    }
  }

  /** An admin who may delete is the only joined member. */
  lemma {:induction false} DeleterIsOnlyJoined(s: Stores, user: string, id: string, u: string)
    requires Inv(s) && Points(s, user, id) && id in s.orgs
    requires JoinedCount(s.orgs[id].members) <= 1
    ensures JoinedIn(s, u, id) <==> u == user
  {
    var ms := s.orgs[id].members;
    assert JoinedIn(s, user, id);
    if JoinedIn(s, u, id) {
      var i :| 0 <= i < |ms| && ms[i].memberName == user && ms[i].status == Joined;
      var j :| 0 <= j < |ms| && ms[j].memberName == u && ms[j].status == Joined;
      OnlyJoined(ms, i, j);
    }
  }

  /** With the caller's profile written, the two unchecked calls have to go well. */
  lemma {:induction false} DeleteKeepsIff(s: Stores, user: string, id: string, c: Calls)
    requires Inv(s)
    ensures Inv(Delete(s, user, id, c).stores) <==> Clean(s, DeleteRequest(user, id), c)
    ensures Delete(s, user, id, c).outcome != Crashed
    ensures Delete(s, user, id, c).outcome == Done <==> DeletePasses(s, user, id) && c.project && c.profileWrite
  {
    assert id in s.orgs ==> (Points(s, user, id) <==> JoinedIn(s, user, id));
    if DeletePasses(s, user, id) && c.project && c.profileWrite {
      var org := s.orgs[id];
      assert GoodOrg(org, id);
      CreatorIsKnown(s, id);
      DropIDAll(s.profiles[user].orgList, id);
      if !c.orgDelete {
        KeptOrgBreaks(s, user, id, c);
      } else if !c.creatorWrite {
        var t := Delete(s, user, id, c).stores;
        OwnedAfterDelete(s.orgs, id, org.createBy);
        assert Used(s, org.createBy) == |Owned(s.orgs, org.createBy)|;
        assert Used(t, org.createBy) != |Owned(t.orgs, org.createBy)|;
      } else {
        WholeDeleteKeeps(s, user, id, c);
      }
    }
  }

  lemma {:induction false} CreatorIsKnown(s: Stores, id: string)
    requires Inv(s) && id in s.orgs
    ensures s.orgs[id].createBy in s.profiles && s.profiles[s.orgs[id].createBy].orgUsed > 0
  {
    var creator := s.orgs[id].createBy;
    assert Used(s, creator) == |Owned(s.orgs, creator)| > 0 by {
      assert id in Owned(s.orgs, creator);
    }
  }

  lemma {:induction false} KeptOrgBreaks(s: Stores, user: string, id: string, c: Calls)
    requires Inv(s) && DeletePasses(s, user, id) && c.project && c.profileWrite && !c.orgDelete
    requires s.orgs[id].createBy in s.profiles
    ensures !Agreement(Delete(s, user, id, c).stores)
  {
    var t := Delete(s, user, id, c).stores;
    DropIDAll(s.profiles[user].orgList, id);
    assert JoinedIn(s, user, id) && t.orgs == s.orgs;
    assert !Points(t, user, id) && JoinedIn(t, user, id);
  }

  /** A whole delete, map by map: the record is gone, the caller's list has lost its entry, the creator's
      counter is one lower. */
  lemma {:induction false} DeleteWrites(s: Stores, user: string, id: string, c: Calls)
    requires Inv(s) && DeletePasses(s, user, id)
    requires c.project && c.profileWrite && c.creatorWrite && c.orgDelete
    ensures var t := Delete(s, user, id, c).stores;
      && t.orgs == s.orgs - {id} && t.profiles.Keys == s.profiles.Keys
      && forall u :: u in s.profiles ==> t.profiles[u] == Profile(
           if u == user then DropID(s.profiles[u].orgList, id) else s.profiles[u].orgList,
           s.profiles[u].orgUsed - if u == s.orgs[id].createBy then 1 else 0)
  {
    assert GoodOrg(s.orgs[id], id);
    CreatorIsKnown(s, id);
  }

  lemma {:induction false} DeleteAgrees(s: Stores, user: string, id: string, c: Calls)
    requires Inv(s) && DeletePasses(s, user, id)
    requires c.project && c.profileWrite && c.creatorWrite && c.orgDelete
    ensures Agreement(Delete(s, user, id, c).stores) && GoodLists(Delete(s, user, id, c).stores)
  {
    var t := Delete(s, user, id, c).stores;
    DeleteWrites(s, user, id, c);
    DropIDAll(s.profiles[user].orgList, id);
    forall u, other ensures Points(t, u, other) <==> JoinedIn(t, u, other) {
      assert Points(s, u, other) <==> JoinedIn(s, u, other);
      DeleterIsOnlyJoined(s, user, id, u);
    }
  }

  lemma {:induction false} DeleteCounts(s: Stores, user: string, id: string, c: Calls)
    requires Inv(s) && DeletePasses(s, user, id)
    requires c.project && c.profileWrite && c.creatorWrite && c.orgDelete
    ensures Quotas(Delete(s, user, id, c).stores)
  {
    var t := Delete(s, user, id, c).stores;
    DeleteWrites(s, user, id, c);
    CreatorIsKnown(s, id);
    forall u ensures Used(t, u) == |Owned(t.orgs, u)| {
      OwnedAfterDelete(s.orgs, id, u);
      assert Used(s, u) == |Owned(s.orgs, u)|;
    }
  }

  lemma {:induction false} DeleteLabels(s: Stores, user: string, id: string, c: Calls)
    requires Inv(s) && DeletePasses(s, user, id)
    requires c.project && c.profileWrite && c.creatorWrite && c.orgDelete
    ensures Labels(Delete(s, user, id, c).stores) && GoodOrgs(Delete(s, user, id, c).stores)
  {
    DeleteWrites(s, user, id, c);
    DropIDAll(s.profiles[user].orgList, id);
    LabelsStay(s, Delete(s, user, id, c).stores);
  }

  lemma {:induction false} WholeDeleteKeeps(s: Stores, user: string, id: string, c: Calls)
    requires Inv(s) && DeletePasses(s, user, id)
    requires c.project && c.profileWrite && c.creatorWrite && c.orgDelete
    ensures Inv(Delete(s, user, id, c).stores)
  {
    DeleteAgrees(s, user, id, c);
    DeleteCounts(s, user, id, c);
    DeleteLabels(s, user, id, c);
  }

  lemma {:induction false} JoinedAfterAccept(ms: Members, user: string, now: string, u: string)
    ensures HasJoined(WithJoined(ms, user, now), u)
       <==> if u == user then Listed(ms, user) else HasJoined(ms, u)
  {
    var after := WithJoined(ms, user, now);
    if HasJoined(after, u) {
      var i :| 0 <= i < |after| && after[i].memberName == u && after[i].status == Joined;
      assert ms[i].memberName == u;
    }
    if u == user && Listed(ms, user) {
      var i :| 0 <= i < |ms| && ms[i].memberName == user;
      assert after[i].status == Joined;
    }
    if u != user && HasJoined(ms, u) {
      var i :| 0 <= i < |ms| && ms[i].memberName == u && ms[i].status == Joined;
      assert after[i] == ms[i];
    }
  }

  lemma {:induction false} AcceptMembers(ms: Members, user: string, now: string)
    requires DistinctNames(ms) && SomeJoinedAdmin(ms)
    ensures var after := WithJoined(ms, user, now);
      && DistinctNames(after) && SomeJoinedAdmin(after)
      && forall u :: HasJoined(after, u) <==> if u == user then Listed(ms, user) else HasJoined(ms, u)
  {
    var k :| 0 <= k < |ms| && JoinedAdmin(ms[k]);
    assert JoinedAdmin(WithJoined(ms, user, now)[k]);
    forall u ensures HasJoined(WithJoined(ms, user, now), u)
                <==> if u == user then Listed(ms, user) else HasJoined(ms, u) {
      JoinedAfterAccept(ms, user, now, u);
    }
  }

  lemma {:induction false} AddIDMeaning(list: seq<OrgBrief>, id: string, name: string)
    requires DistinctIDs(list)
    ensures DistinctIDs(AddID(list, id, name))
    ensures forall other :: HasID(AddID(list, id, name), other) <==> HasID(list, other) || other == id
  {
    forall other ensures HasID(AddID(list, id, name), other) <==> HasID(list, other) || other == id {
      HasIDAppend(list, OrgBrief(id, name), other);
    }
  }

  /** A whole accept keeps the invariant exactly when the caller is a listed member; one cut short, exactly
      when it has not made the caller join. */
  lemma {:induction false} AcceptKeepsIff(s: Stores, user: string, id: string, now: string, c: Calls)
    requires Inv(s)
    ensures Inv(Accept(s, user, id, now, c).stores) <==> Clean(s, AcceptRequest(user, id, now), c)
    ensures Accept(s, user, id, now, c).outcome != Crashed
  {
    if AcceptPasses(s, user, id) && c.orgWrite {
      var t := Accept(s, user, id, now, c).stores;
      var org := s.orgs[id];
      assert GoodOrg(org, id);
      AcceptMembers(org.members, user, now);
      AddIDMeaning(s.profiles[user].orgList, id, org.name);
      assert Points(s, user, id) <==> JoinedIn(s, user, id);
      var listed, pointing := Listed(org.members, user), c.profileWrite || Points(s, user, id);
      assert Points(t, user, id) <==> pointing;
      assert JoinedIn(t, user, id) <==> listed;
      if pointing == listed {
        KeepsByRewrite(s, t, t.orgs[id], user);
      } else {
        assert !Agreement(t);
      }
      HasJoinedListed(org.members, user);
    }
  }

  lemma {:induction false} HasJoinedListed(ms: Members, user: string)
    ensures HasJoined(ms, user) ==> Listed(ms, user)
  {
    if HasJoined(ms, user) {
      var i :| 0 <= i < |ms| && ms[i].memberName == user && ms[i].status == Joined;
    }
  }

  lemma {:induction false} LeaveMembers(ms: Members, user: string)
    requires DistinctNames(ms) && SomeJoinedAdmin(ms) && !IsLastAdmin(ms, user)
    ensures var rest := Without(ms, user);
      && DistinctNames(rest) && SomeJoinedAdmin(rest)
      && forall u :: HasJoined(rest, u) <==> HasJoined(ms, u) && u != user
  {
    WithoutDistinct(ms, user);
    var i :| 0 <= i < |ms| && JoinedAdmin(ms[i]);
    if ms[i].memberName == user {
      i := AnotherJoinedAdmin(ms, i);
    }
    AdminStays(ms, user, i);
    forall u ensures HasJoined(Without(ms, user), u) <==> HasJoined(ms, u) && u != user {
      JoinedWithout(ms, user, u);
    }
  }

  lemma {:induction false} DropIDAll(list: seq<OrgBrief>, id: string)
    requires DistinctIDs(list)
    ensures DistinctIDs(DropID(list, id))
    ensures forall other :: HasID(DropID(list, id), other) <==> HasID(list, other) && other != id
    ensures forall b :: b in DropID(list, id) ==> b in list
  {
    DropIDMeaning(list, id, id);
    DropIDSubset(list, id);
    forall other ensures HasID(DropID(list, id), other) <==> HasID(list, other) && other != id {
      DropIDMeaning(list, id, other);
    }
  }

  lemma {:induction false} LeaveKeepsIff(s: Stores, user: string, id: string, c: Calls)
    requires Inv(s)
    ensures Inv(Leave(s, user, id, c).stores) <==> Clean(s, LeaveRequest(user, id), c)
    ensures Leave(s, user, id, c).outcome != Crashed
  {
    if Points(s, user, id) && id in s.orgs {
      var org := s.orgs[id];
      assert GoodOrg(org, id);
      DistinctSweep(org.members, user);
      if LeavePasses(s, user, id) && c.orgWrite {
        var t := Leave(s, user, id, c).stores;
        LeaveMembers(org.members, user);
        DropIDAll(s.profiles[user].orgList, id);
        if c.profileWrite {
          KeepsByRewrite(s, t, t.orgs[id], user);
        } else {
          assert Points(t, user, id) && !JoinedIn(t, user, id);
        }
      }
    }
  }

  /** Whatever its calls answer: nothing else is written once the organisation is. */
  lemma {:induction false} InviteKeeps(s: Stores, user: string, id: string, member: OrgMember, c: Calls)
    requires Inv(s)
    ensures Inv(Invite(s, user, id, member, c).stores)
    ensures Invite(s, user, id, member, c).outcome != Crashed
  {
    var reply := Invite(s, user, id, member, c);
    var t := reply.stores;
    if Gate(s, user, id) == Done {
      assert Points(s, user, id) && JoinedIn(s, user, id);
      if reply.outcome == Done {
        var org, after := s.orgs[id], t.orgs[id];
        assert GoodOrg(org, id);
        var m := after.members[|org.members|];
        assert after.members == org.members + [m];
        var k :| 0 <= k < |org.members| && JoinedAdmin(org.members[k]);
        assert JoinedAdmin(after.members[k]);
        assert GoodOrg(after, id);
        forall u ensures HasJoined(after.members, u) <==> HasJoined(org.members, u) {
          JoinedAppend(org.members, m, u);
        }
        forall other ensures Points(t, user, other) <==> Points(s, user, other) {
          assert t.profiles == s.profiles;
        }
        KeepsByRewrite(s, t, after, user);
      } else {
        RolesDoNotMatter(s, t);
      }
    }
  }

  lemma {:induction false} RolesDoNotMatter(s: Stores, t: Stores)
    requires Inv(s) && t.orgs == s.orgs && t.profiles == s.profiles
    ensures Inv(t)
  {
    forall u, id ensures Points(t, u, id) <==> JoinedIn(t, u, id) {
      assert Points(s, u, id) <==> JoinedIn(s, u, id);
    }
    forall u ensures Used(t, u) == |Owned(t.orgs, u)| {
      assert Used(s, u) == |Owned(s.orgs, u)|;
    }
  }

  /** The two maps after a removal that has written the organisation. */
  lemma {:induction false} RemoveWrites(s: Stores, user: string, id: string, member: string, c: Calls)
    requires Inv(s) && RemovePasses(s, user, id, member) && c.orgWrite
    ensures var t := Remove(s, user, id, member, c).stores;
      var org := s.orgs[id];
      && t.orgs == s.orgs[id := org.(members := Without(org.members, member))]
      && t.profiles == if c.adminRole && c.editRole && c.profileWrite && member in s.profiles
           then s.profiles[member := s.profiles[member].(orgList := DropID(s.profiles[member].orgList, id))]
           else s.profiles
    ensures Remove(s, user, id, member, c).outcome ==
      if c.adminRole && c.editRole && c.profileWrite && member in s.profiles then Done else Failed
  {
    assert GoodOrg(s.orgs[id], id);
    DistinctSweep(s.orgs[id].members, member);
  }

  lemma {:induction false} RemoveStops(s: Stores, user: string, id: string, member: string, c: Calls)
    requires Inv(s) && !(RemovePasses(s, user, id, member) && c.orgWrite)
    ensures Remove(s, user, id, member, c).stores == s
    ensures Remove(s, user, id, member, c).outcome != Crashed && Remove(s, user, id, member, c).outcome != Done
  {
    if Points(s, user, id) {
      assert JoinedIn(s, user, id) && GoodOrg(s.orgs[id], id);
      DistinctSweep(s.orgs[id].members, member);
    }
  }

  /** Once the organisation is written, the removal of a joined member must reach that member's profile. */
  lemma {:induction false} RemoveKeepsIff(s: Stores, user: string, id: string, member: string, c: Calls)
    requires Inv(s)
    ensures Inv(Remove(s, user, id, member, c).stores) <==> Clean(s, RemoveRequest(user, id, member), c)
    ensures Remove(s, user, id, member, c).outcome != Crashed
  {
    if RemovePasses(s, user, id, member) && c.orgWrite {
      var t := Remove(s, user, id, member, c).stores;
      RemoveWrites(s, user, id, member, c);
      RemoveMembers(s, user, id, member);
      RemovedMapsKeepIff(s, t, id, member, Without(s.orgs[id].members, member),
                         c.adminRole && c.editRole && c.profileWrite && member in s.profiles);
      assert Points(s, member, id) <==> JoinedIn(s, member, id);
    } else {
      RemoveStops(s, user, id, member, c);
    }
  }

  lemma {:induction false} RemovedMapsKeepIff(s: Stores, t: Stores, id: string, member: string, rest: Members,
                                              dropped: bool)
    requires Inv(s) && id in s.orgs && DistinctNames(rest) && SomeJoinedAdmin(rest)
    requires forall u :: HasJoined(rest, u) <==> HasJoined(s.orgs[id].members, u) && u != member
    requires t.orgs == s.orgs[id := s.orgs[id].(members := rest)]
    requires dropped ==> member in s.profiles
    requires t.profiles == if dropped
      then s.profiles[member := s.profiles[member].(orgList := DropID(s.profiles[member].orgList, id))] else s.profiles
    ensures Inv(t) <==> dropped || !HasJoined(s.orgs[id].members, member)
  {
    assert GoodOrg(s.orgs[id], id);
    assert Points(s, member, id) <==> JoinedIn(s, member, id);
    if dropped {
      DropIDAll(s.profiles[member].orgList, id);
    }
    if Points(t, member, id) {
      assert !JoinedIn(t, member, id);
    } else {
      assert forall other :: other != id ==> (Points(t, member, other) <==> Points(s, member, other));
      KeepsByRewrite(s, t, t.orgs[id], member);
    }
  }

  lemma {:induction false} RemoveMembers(s: Stores, user: string, id: string, member: string)
    requires Inv(s) && RemovePasses(s, user, id, member)
    ensures var rest := Without(s.orgs[id].members, member);
      && DistinctNames(rest) && SomeJoinedAdmin(rest)
      && forall u :: HasJoined(rest, u) <==> HasJoined(s.orgs[id].members, u) && u != member
  {
    var ms := s.orgs[id].members;
    assert GoodOrg(s.orgs[id], id);
    var i := ActingAdminIsJoined(s, user, id);
    WithoutDistinct(ms, member);
    AdminStays(ms, member, i);
    forall u ensures HasJoined(Without(ms, member), u) <==> HasJoined(ms, u) && u != member {
      JoinedWithout(ms, member, u);
    }
  }

  lemma {:induction false} FirstEntry(ms: Members, user: string) returns (i: nat)
    requires Listed(ms, user)
    ensures i < |ms| && ms[i].memberName == user
    ensures forall j :: 0 <= j < i ==> ms[j].memberName != user
  {
    if ms[0].memberName == user {
      i := 0;
    } else {
      var k :| 0 <= k < |ms| && ms[k].memberName == user;
      assert ms[1..][k - 1].memberName == user;
      i := FirstEntry(ms[1..], user);
      i := i + 1;
    }
  }

  lemma {:induction false} PrivilegeMembers(ms: Members, user: string, member: string, isAdmin: bool, i: int)
    requires Listed(ms, member) && DistinctNames(ms) && !IsLastAdmin(ms, member)
    requires 0 <= i < |ms| && JoinedAdmin(ms[i])
    ensures var after := WithPrivilege(ms, member, isAdmin, user);
      && DistinctNames(after) && SomeJoinedAdmin(after)
      && forall u :: HasJoined(after, u) <==> HasJoined(ms, u)
  {
    var k := FirstEntry(ms, member);
    WithPrivilegeAt(ms, member, isAdmin, user, k);
    var after := WithPrivilege(ms, member, isAdmin, user);
    var j := i;
    if i == k {
      j := AnotherJoinedAdmin(ms, i);
    }
    assert JoinedAdmin(after[j]);
    assert forall j :: 0 <= j < |ms| ==> after[j].memberName == ms[j].memberName && after[j].status == ms[j].status;
    forall u ensures HasJoined(after, u) <==> HasJoined(ms, u) {
      if HasJoined(ms, u) {
        var j :| 0 <= j < |ms| && ms[j].memberName == u && ms[j].status == Joined;
        assert after[j].status == Joined;
      }
    }
  }

  /** What a privilege change that goes through has passed, and the maps it leaves. */
  lemma {:induction false} PrivilegeMaps(s: Stores, user: string, id: string, member: string, isAdmin: bool, c: Calls)
    requires Inv(s)
    ensures var reply := Privilege(s, user, id, member, isAdmin, c);
      && reply.outcome != Crashed
      && reply.stores.profiles == s.profiles
      && (reply.outcome != Done ==> reply.stores.orgs == s.orgs)
      && (reply.outcome == Done ==>
            && Points(s, user, id) && id in s.orgs && HasAdmin(s.orgs[id].members, user)
            && Listed(s.orgs[id].members, member) && !IsLastAdmin(s.orgs[id].members, member)
            && reply.stores.orgs == s.orgs[id := s.orgs[id].(
                 members := WithPrivilege(s.orgs[id].members, member, isAdmin, user))])
  {
    assert id in s.orgs ==> GoodOrg(s.orgs[id], id);
  }

  lemma {:induction false} RegradedMapsKeep(s: Stores, t: Stores, user: string, id: string, member: string,
                                            isAdmin: bool)
    requires Inv(s) && Points(s, user, id) && id in s.orgs && HasAdmin(s.orgs[id].members, user)
    requires Listed(s.orgs[id].members, member) && !IsLastAdmin(s.orgs[id].members, member)
    requires t.profiles == s.profiles
    requires t.orgs == s.orgs[id := s.orgs[id].(
      members := WithPrivilege(s.orgs[id].members, member, isAdmin, user))]
    ensures Inv(t)
  {
    assert GoodOrg(s.orgs[id], id);
    assert JoinedIn(s, user, id);
    var i := ActingAdminIsJoined(s, user, id);
    PrivilegeMembers(s.orgs[id].members, user, member, isAdmin, i);
    assert forall other :: Points(t, user, other) <==> Points(s, user, other);
    KeepsByRewrite(s, t, t.orgs[id], user);
  }

  /** Whatever its calls answer. */
  lemma {:induction false} PrivilegeKeeps(s: Stores, user: string, id: string, member: string, isAdmin: bool, c: Calls)
    requires Inv(s)
    ensures Inv(Privilege(s, user, id, member, isAdmin, c).stores)
    ensures Privilege(s, user, id, member, isAdmin, c).outcome != Crashed
  {
    var reply := Privilege(s, user, id, member, isAdmin, c);
    PrivilegeMaps(s, user, id, member, isAdmin, c);
    if reply.outcome == Done {
      RegradedMapsKeep(s, reply.stores, user, id, member, isAdmin);
    } else {
      RolesDoNotMatter(s, reply.stores);
    }
  }

  /** The whole step relation: whatever its calls answer, a request keeps the invariant exactly when it
      is clean, and never crashes. */
  lemma {:induction false} StepKeepsIff(s: Stores, r: Request, c: Calls)
    requires Inv(s)
    ensures Inv(Step(s, r, c).stores) <==> Clean(s, r, c)
    ensures Step(s, r, c).outcome != Crashed
  {
    match r
    case SignUpRequest(user, details, profile) => SignUpKeepsIff(s, user, details, profile, c);
    case CreateRequest(user, name, body, suffix, now) => CreateKeepsIff(s, user, name, body, suffix, now, c);
    case DeleteRequest(user, id) => DeleteKeepsIff(s, user, id, c);
    case AcceptRequest(user, id, now) => AcceptKeepsIff(s, user, id, now, c);
    case LeaveRequest(user, id) => LeaveKeepsIff(s, user, id, c);
    case InviteRequest(user, id, member) => InviteKeeps(s, user, id, member, c);
    case RemoveRequest(user, id, memberName) => RemoveKeepsIff(s, user, id, memberName, c);
    case PrivilegeRequest(user, id, memberName, isAdmin) => PrivilegeKeeps(s, user, id, memberName, isAdmin, c);
  }

  // ----- runs -----

  /** Requests, each with the answers to its calls. */
  type Requests = seq<(Request, Calls)>

  function Run(s: Stores, rs: Requests): Stores
    decreases rs
  {
    if rs == [] then s else Run(Step(s, rs[0].0, rs[0].1).stores, rs[1..])
  }

  ghost predicate CleanRun(s: Stores, rs: Requests)
    decreases rs
  {
    rs == [] || (Clean(s, rs[0].0, rs[0].1) && CleanRun(Step(s, rs[0].0, rs[0].1).stores, rs[1..]))
  }

  const EMPTY: Stores := Stores(map[], map[], map[], map[])

  lemma {:induction false} EmptyInv()
    ensures Inv(EMPTY)
  {
    assert forall user, id :: !Points(EMPTY, user, id) && !JoinedIn(EMPTY, user, id);
    assert forall user :: Owned(EMPTY.orgs, user) == {};
  }

  lemma {:induction false} RunKeeps(s: Stores, rs: Requests)
    requires Inv(s) && CleanRun(s, rs)
    ensures Inv(Run(s, rs))
    decreases rs
  {
    if rs != [] {
      StepKeepsIff(s, rs[0].0, rs[0].1);
      RunKeeps(Step(s, rs[0].0, rs[0].1).stores, rs[1..]);
    }
  }

  /** Admin safety, cross-store agreement and quota conservation over every clean run from empty stores,
      failing calls included; and the request after it does not crash, however its calls are answered. */
  lemma {:induction false} RunsAreSafe(rs: Requests, next: Request, c: Calls)
    requires CleanRun(EMPTY, rs)
    ensures var s := Run(EMPTY, rs);
      && (forall id :: id in s.orgs ==> DistinctNames(s.orgs[id].members) && SomeJoinedAdmin(s.orgs[id].members))
      && (forall user, id :: Points(s, user, id) <==> JoinedIn(s, user, id))
      && (forall user, b :: user in s.profiles && b in s.profiles[user].orgList ==>
            b.orgID in s.orgs && b.orgName == s.orgs[b.orgID].name)
      && (forall user :: Used(s, user) == |Owned(s.orgs, user)|)
      && (forall user :: user in s.profiles ==> 0 <= s.profiles[user].orgUsed <= 9999999)
      && Step(s, next, c).outcome != Crashed
  {
    EmptyInv();
    RunKeeps(EMPTY, rs);
    var s := Run(EMPTY, rs);
    StepKeepsIff(s, next, c);
    forall id | id in s.orgs ensures DistinctNames(s.orgs[id].members) && SomeJoinedAdmin(s.orgs[id].members) {
      assert GoodOrg(s.orgs[id], id);
    }
    forall user, b | user in s.profiles && b in s.profiles[user].orgList
      ensures b.orgID in s.orgs && b.orgName == s.orgs[b.orgID].name
    {
      assert LabelsFit(s.profiles[user].orgList, s.orgs);
      var i :| 0 <= i < |s.profiles[user].orgList| && s.profiles[user].orgList[i] == b;
      assert Points(s, user, b.orgID) && JoinedIn(s, user, b.orgID);
    }
  }

  // ----- runs that are not clean -----

  predicate NamedApart(org: OrgRecord, id: string) {
    org.id == id && DistinctNames(org.members)
  }

  ghost predicate AllNamedApart(s: Stores) {
    forall id :: id in s.orgs ==> NamedApart(s.orgs[id], id)
  }

  predicate ApartBody(r: Request) {
    r.CreateRequest? ==> DistinctNames(r.body) && !Listed(r.body, r.user)
  }

  lemma {:induction false} LeaveKeepsNames(s: Stores, user: string, id: string, c: Calls)
    requires AllNamedApart(s)
    ensures AllNamedApart(Leave(s, user, id, c).stores)
  {
    if id in s.orgs {
      assert NamedApart(s.orgs[id], id);
      DistinctSweep(s.orgs[id].members, user);
      WithoutDistinct(s.orgs[id].members, user);
    }
  }

  lemma {:induction false} RemoveKeepsNames(s: Stores, user: string, id: string, member: string, c: Calls)
    requires AllNamedApart(s)
    ensures AllNamedApart(Remove(s, user, id, member, c).stores)
  {
    if id in s.orgs {
      assert NamedApart(s.orgs[id], id);
      DistinctSweep(s.orgs[id].members, member);
      WithoutDistinct(s.orgs[id].members, member);
    }
  }

  lemma {:induction false} InviteKeepsNames(s: Stores, user: string, id: string, member: OrgMember, c: Calls)
    requires AllNamedApart(s)
    ensures AllNamedApart(Invite(s, user, id, member, c).stores)
  {
    if id in s.orgs {
      assert NamedApart(s.orgs[id], id);
    }
  }

  lemma {:induction false} PrivilegeKeepsNames(s: Stores, user: string, id: string, member: string, isAdmin: bool,
                                               c: Calls)
    requires AllNamedApart(s)
    ensures AllNamedApart(Privilege(s, user, id, member, isAdmin, c).stores)
  {
    if id in s.orgs {
      assert NamedApart(s.orgs[id], id);
      if Listed(s.orgs[id].members, member) {
        var k := FirstEntry(s.orgs[id].members, member);
        WithPrivilegeAt(s.orgs[id].members, member, isAdmin, user, k);
      }
    }
  }

  lemma {:induction false} StepKeepsNames(s: Stores, r: Request, c: Calls)
    requires AllNamedApart(s) && ApartBody(r)
    ensures AllNamedApart(Step(s, r, c).stores)
  {
    match r
    case SignUpRequest(user, details, profile) =>
      assert SignUp(s, user, details, profile, c).stores.orgs == s.orgs;
    case CreateRequest(user, name, body, suffix, now) =>
      assert AllNamedApart(Create(s, user, name, body, suffix, now, c).stores);
    case DeleteRequest(user, id) =>
      assert AllNamedApart(Delete(s, user, id, c).stores);
    case AcceptRequest(user, id, now) =>
      if id in s.orgs { assert NamedApart(s.orgs[id], id); }
      assert AllNamedApart(Accept(s, user, id, now, c).stores);
    case LeaveRequest(user, id) => LeaveKeepsNames(s, user, id, c);
    case InviteRequest(user, id, member) => InviteKeepsNames(s, user, id, member, c);
    case RemoveRequest(user, id, memberName) => RemoveKeepsNames(s, user, id, memberName, c);
    case PrivilegeRequest(user, id, memberName, isAdmin) => PrivilegeKeepsNames(s, user, id, memberName, isAdmin, c);
  }

  /** Whatever calls fail and whoever accepts: no member list ever names a user twice, so the in-place
      removal stays in range and is exact in every run. */
  lemma {:induction false} AnyRunKeepsNames(s: Stores, rs: Requests, id: string, user: string)
    requires AllNamedApart(s)
    requires forall i :: 0 <= i < |rs| ==> ApartBody(rs[i].0)
    ensures AllNamedApart(Run(s, rs))
    ensures id in Run(s, rs).orgs ==>
      var ms := Run(s, rs).orgs[id].members;
      SweepFrom(ms, |ms|, 0, user) == Some(Without(ms, user))
    decreases rs
  {
    if rs != [] {
      assert ApartBody(rs[0].0);
      StepKeepsNames(s, rs[0].0, rs[0].1);
      AnyRunKeepsNames(Step(s, rs[0].0, rs[0].1).stores, rs[1..], id, user);
    } else if id in s.orgs {
      assert NamedApart(s.orgs[id], id);
      DistinctSweep(s.orgs[id].members, user);
      SweepMeaning(s.orgs[id].members, user);
    }
  }

  // ----- what a create writes -----

  /** Record and list entry of every create that goes through, field by field. */
  lemma {:induction false} CreateWrites(s: Stores, user: string, name: string, body: Members, suffix: string,
                                        now: string, c: Calls)
    requires Create(s, user, name, body, suffix, now, c).outcome == Done
    ensures var t := Create(s, user, name, body, suffix, now, c).stores;
      var id := user + "-org-" + suffix;
      && user in s.profiles && user in t.profiles && id in t.orgs
      && t.orgs[id].id == id && t.orgs[id].name == name
      && t.orgs[id].createBy == user && t.orgs[id].createTime == now && t.orgs[id].roleBinding
      && t.orgs[id].members == body + [OrgMember(user, true, user, now, Joined)]
      && t.profiles[user].orgList == s.profiles[user].orgList + [OrgBrief(id, name)]
      && t.profiles[user].orgUsed == s.profiles[user].orgUsed + 1
      && (forall other :: other != id ==>
            (other in t.orgs <==> other in s.orgs) && (other in s.orgs ==> t.orgs[other] == s.orgs[other]))
      && (forall other :: other != user ==>
            (other in t.profiles <==> other in s.profiles)
            && (other in s.profiles ==> t.profiles[other] == s.profiles[other]))
  {
  }

  /** The name is taken from then on: the same user's next create of it is refused, whatever else it brings. */
  lemma {:induction false} NameIsTaken(s: Stores, user: string, name: string, body: Members, suffix: string,
                                       now: string, c: Calls, body2: Members, suffix2: string, now2: string, c2: Calls)
    requires Create(s, user, name, body, suffix, now, c).outcome == Done
    ensures var t := Create(s, user, name, body, suffix, now, c).stores;
      && HasName(t.profiles[user].orgList, name)
      && Create(t, user, name, body2, suffix2, now2, c2) == Reply(t, Refused(14090))
  {
    CreateWrites(s, user, name, body, suffix, now, c);
    var list := Create(s, user, name, body, suffix, now, c).stores.profiles[user].orgList;
    assert list[|list| - 1].orgName == name;
  }

  // ----- why a create must bring a clean body -----

  lemma {:induction false} Created(s: Stores, user: string, name: string, body: Members, suffix: string, now: string)
    requires Create(s, user, name, body, suffix, now, ALL_WELL).outcome == Done
    ensures var t := Create(s, user, name, body, suffix, now, ALL_WELL).stores;
      var id := OrgID(user, suffix);
      && Points(t, user, id) && id in t.orgs && t.orgs[id].id == id
      && t.orgs[id].members == body + [OrgMember(user, true, user, now, Joined)]
  {
    HasIDAppend(s.profiles[user].orgList, OrgBrief(OrgID(user, suffix), name), OrgID(user, suffix));
  }

  /** The creator's leave slices out of range exactly when the body named the creator too and brought a joined
      admin; without one the creator is the last admin and refused. */
  lemma {:induction false} CreateThenLeaveCrashesIff(s: Stores, user: string, name: string, body: Members,
                                                     suffix: string, now: string)
    requires Create(s, user, name, body, suffix, now, ALL_WELL).outcome == Done
    ensures var t := Create(s, user, name, body, suffix, now, ALL_WELL).stores;
      Leave(t, user, OrgID(user, suffix), ALL_WELL).outcome == Crashed <==> Listed(body, user) && SomeJoinedAdmin(body)
  {
    Created(s, user, name, body, suffix, now);
    var creator := OrgMember(user, true, user, now, Joined);
    var ms := body + [creator];
    assert ms[|body|] == creator && ms[..|ms| - 1] == body;
    JoinedAdminCountPositive(body);
  }

  /** The creator's removal of someone the body names leaves exactly the others when the body does not name that
      user twice in a row; else a copy stays. */
  lemma {:induction false} CreateThenRemoveExactIff(s: Stores, user: string, name: string, body: Members,
                                                    suffix: string, now: string, member: string)
    requires Create(s, user, name, body, suffix, now, ALL_WELL).outcome == Done
    requires member != user && Listed(body, member)
    ensures var t := Create(s, user, name, body, suffix, now, ALL_WELL).stores;
      var id := OrgID(user, suffix);
      var after := Remove(t, user, id, member, ALL_WELL).stores;
      && id in after.orgs
      && (after.orgs[id].members == Without(t.orgs[id].members, member) <==> !AdjacentHits(body, member))
  {
    Created(s, user, name, body, suffix, now);
    var creator := OrgMember(user, true, user, now, Joined);
    CreatorLast(body, creator, member);
    SweptIsWithoutIff(body + [creator], member);
  }

  /** A creator behind the body adds no hit of another name. */
  lemma {:induction false} CreatorLast(body: Members, creator: OrgMember, member: string)
    requires creator.isAdmin && member != creator.memberName && Listed(body, member)
    ensures var ms := body + [creator];
      && HasAdmin(ms, creator.memberName) && Listed(ms, member) && !SweepOutOfRange(ms, member)
      && (AdjacentHits(ms, member) <==> AdjacentHits(body, member))
  {
    var ms := body + [creator];
    assert ms[|body|] == creator && forall i :: 0 <= i < |body| ==> ms[i] == body[i];
    assert HasAdmin(ms, creator.memberName);
    var k :| 0 <= k < |body| && body[k].memberName == member;
    assert ms[k].memberName == member && ms[|ms| - 1] == creator;
    if AdjacentHits(body, member) {
      var i :| 0 < i < |body| && body[i - 1].memberName == member && body[i].memberName == member;
      assert ms[i - 1].memberName == member && ms[i].memberName == member;
    }
    if AdjacentHits(ms, member) {
      var i :| 0 < i < |ms| && ms[i - 1].memberName == member && ms[i].memberName == member;
      assert body[i - 1].memberName == member && body[i].memberName == member;
    }
  }

  // ----- why an accept must come from a listed member -----

  function Creator(a: string): OrgMember {
    OrgMember(a, true, a, "", Joined)
  }

  function InvitedAdmin(b: string, granter: string): OrgMember {
    OrgMember(b, true, granter, "", Invited)
  }

  lemma {:induction false} StrayCreate(s: Stores, a: string, name: string, suffix: string)
    requires Create(s, a, name, [], suffix, "", ALL_WELL).outcome == Done
    ensures var id := OrgID(a, suffix);
      var t := Create(s, a, name, [], suffix, "", ALL_WELL).stores;
      && id in t.orgs && t.orgs[id].id == id && t.orgs[id].members == [Creator(a)]
      && Points(t, a, id) && t.profiles.Keys == s.profiles.Keys
  {
    assert [] + [Creator(a)] == [Creator(a)];
    HasIDAppend(s.profiles[a].orgList, OrgBrief(OrgID(a, suffix), name), OrgID(a, suffix));
  }

  lemma {:induction false} StrayAccept(s: Stores, a: string, b: string, id: string)
    requires a != b && b in s.profiles && id in s.orgs
    requires s.orgs[id].id == id && s.orgs[id].members == [Creator(a)]
    ensures var t := Accept(s, b, id, "", ALL_WELL).stores;
      && t.orgs == s.orgs && Points(t, b, id) && b in t.profiles
      && (Points(s, a, id) ==> Points(t, a, id))
  {
    assert WithJoined([Creator(a)], b, "") == [Creator(a)];
    HasIDAppend(s.profiles[b].orgList, OrgBrief(id, s.orgs[id].name), id);
  }

  lemma {:induction false} StrayInvite(s: Stores, a: string, b: string, id: string)
    requires a != b && b in s.profiles && Points(s, a, id) && id in s.orgs
    requires s.orgs[id].id == id && s.orgs[id].members == [Creator(a)]
    ensures var t := Invite(s, a, id, OrgMember(b, true, "", "", NoStatus), ALL_WELL).stores;
      && id in t.orgs && t.orgs[id].id == id && t.profiles == s.profiles
      && t.orgs[id].members == [Creator(a), InvitedAdmin(b, a)]
  {
    assert [Creator(a)][0].isAdmin;
    assert [Creator(a)] + [InvitedAdmin(b, a)] == [Creator(a), InvitedAdmin(b, a)];
  }

  lemma {:induction false} StrayRemove(s: Stores, a: string, b: string, id: string)
    requires a != b && Points(s, b, id) && id in s.orgs
    requires s.orgs[id].id == id && s.orgs[id].members == [Creator(a), InvitedAdmin(b, a)]
    ensures var t := Remove(s, b, id, a, ALL_WELL).stores;
      id in t.orgs && t.orgs[id].members == [InvitedAdmin(b, a)]
  {
    var ms := s.orgs[id].members;
    assert ms[1] == InvitedAdmin(b, a) && ms[0] == Creator(a);
    assert HasAdmin(ms, b) && Listed(ms, a);
    assert Swept(ms, a) == [ms[1]] + Swept(ms[2..], a) == [ms[1]];
  }

  /** From any stores, an unlisted user's accept opens the gate early: invited as admin and never
      joined, that user can then remove the only joined admin. */
  lemma {:induction false} UnlistedAcceptLosesTheAdmin(s: Stores, a: string, b: string, name: string, suffix: string)
    requires a != b && b in s.profiles
    requires Create(s, a, name, [], suffix, "", ALL_WELL).outcome == Done
    ensures var id := OrgID(a, suffix);
      var s1 := Create(s, a, name, [], suffix, "", ALL_WELL).stores;
      var s2 := Accept(s1, b, id, "", ALL_WELL).stores;
      var s3 := Invite(s2, a, id, OrgMember(b, true, "", "", NoStatus), ALL_WELL).stores;
      var s4 := Remove(s3, b, id, a, ALL_WELL).stores;
      id in s4.orgs && !SomeJoinedAdmin(s4.orgs[id].members)
  {
    var id := OrgID(a, suffix);
    var s1 := Create(s, a, name, [], suffix, "", ALL_WELL).stores;
    StrayCreate(s, a, name, suffix);
    StrayAccept(s1, a, b, id);
    var s2 := Accept(s1, b, id, "", ALL_WELL).stores;
    StrayInvite(s2, a, b, id);
    var s3 := Invite(s2, a, id, OrgMember(b, true, "", "", NoStatus), ALL_WELL).stores;
    StrayRemove(s3, a, b, id);
  }
}
