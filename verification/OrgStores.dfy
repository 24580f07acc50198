/** The two stores behind organisation requests, and each request as a function on them.
    A request carries the results of its calls to the outside in a `Calls` value. */
module OrgStores {
  import opened Membership
  import opened Organization
  import opened Validation

  datatype OrgBrief = OrgBrief(orgID: string, orgName: string)

  datatype Profile = Profile(orgList: seq<OrgBrief>, orgUsed: int)

  /** What a sign-up is checked for besides its name; `email` says whether the address matches its pattern. */
  datatype Credentials = Credentials(email: bool, password: string) {
    predicate Fit() {
      email && 8 <= |password| <= 12
    }
  }

  /** Subjects and user names of one role, as sent by UpdateRoleBinding. */
  datatype RoleBinding = RoleBinding(subjects: seq<string>, userNames: seq<string>)

  datatype Stores = Stores(
    orgs: map<string, OrgRecord>,
    profiles: map<string, Profile>,
    adminRoles: map<string, RoleBinding>,
    editRoles: map<string, RoleBinding>)

  datatype Outcome =
    | Done
    | Refused(code: int)
    | Failed   // a call to a store or to the cluster failed
    | Exited   // a fatal log entry ended the process
    | Crashed  // a nil dereference, a failed type assertion or a slice out of range

  datatype Reply = Reply(stores: Stores, outcome: Outcome)

  /** What the outside answers: true where the call returns no error, or, for LDAP, where the user is there
      already. A role that cannot be read is deleted before it is sent again: `adminGone` and `editGone` say
      that the old binding was lost that way. */
  datatype Calls = Calls(
    ldap: bool,
    project: bool,
    adminRole: bool,
    adminGone: bool,
    editRole: bool,
    editGone: bool,
    orgWrite: bool,
    profileWrite: bool,
    creatorWrite: bool,
    orgDelete: bool)

  const ALL_WELL := Calls(true, true, true, false, true, false, true, true, true, true)

  const ERR_NAME_TOO_SHORT := 14000
  const ERR_ACTION_NOT_SUPPORT := 14003
  const ERR_PASSWORD_LENGTH := 14006
  const ERR_EMAIL_INVALID := 14007
  const ERR_NAME_INVALID := 14008
  const ERR_ORG_NOT_EMPTY := 14009
  const ERR_QUOTA_EXCEEDED := 140010
  const ERR_LAST_ADMIN := 140011
  const ERR_USER_INVITED := 140012
  const ERR_USER_EXISTS_IN_ORG := 140013
  const ERR_USER_NOT_REGISTERED := 140014
  const ERR_PERMISSION_DENIED := 14030
  const ERR_NOT_FOUND := 1404
  const ERR_ORG_NOT_FOUND := 14040
  const ERR_USER_NOT_FOUND := 14041
  const ERR_ORG_EXIST := 14090
  const ERR_USER_EXIST := 14091

  const MAX_ORGS := 9999999

  // ----- lists of a profile -----

  predicate HasID(list: seq<OrgBrief>, id: string) {
    exists i :: 0 <= i < |list| && list[i].orgID == id
  }

  predicate HasName(list: seq<OrgBrief>, name: string) {
    exists i :: 0 <= i < |list| && list[i].orgName == name
  }

  /** DeleteOrgFromList: the first entry of that id goes. */
  function DropID(list: seq<OrgBrief>, id: string): seq<OrgBrief> {
    if list == [] then []
    else if list[0].orgID == id then list[1..]
    else [list[0]] + DropID(list[1..], id)
  }

  lemma {:induction false} DropNone(list: seq<OrgBrief>, id: string)
    requires forall j :: 0 <= j < |list| ==> list[j].orgID != id
    ensures DropID(list, id) == list
  {
    if list != [] {
      DropNone(list[1..], id);
      assert list == [list[0]] + list[1..];
    }
  }

  lemma {:induction false} DropOneLater(list: seq<OrgBrief>, id: string, i: nat)
    requires 0 < i < |list| && list[0].orgID != id
    requires DropID(list[1..], id) == list[1..][..i - 1] + list[1..][i..]
    ensures DropID(list, id) == list[..i] + list[i + 1..]
  {
    assert list[1..][..i - 1] == list[1..i] && list[1..][i..] == list[i + 1..];
    assert list[..i] == [list[0]] + list[1..i];
  }

  lemma {:induction false} DropIDAt(list: seq<OrgBrief>, id: string, i: nat)
    requires i <= |list| && forall j :: 0 <= j < i ==> list[j].orgID != id
    requires i < |list| ==> list[i].orgID == id
    ensures DropID(list, id) == if i < |list| then list[..i] + list[i + 1..] else list
  {
    if i == |list| {
      DropNone(list, id);
    } else if i > 0 {
      DropIDAt(list[1..], id, i - 1);
      DropOneLater(list, id, i);
    }
  }

  /** AddOrgToList: no second entry of an id. */
  function AddID(list: seq<OrgBrief>, id: string, name: string): seq<OrgBrief> {
    if HasID(list, id) then list else list + [OrgBrief(id, name)]
  }

  // ----- role bindings -----

  function AdminRole(ms: Members): RoleBinding {
    RoleBinding(RoleNames(ms, true), RoleNames(ms, true))
  }

  function EditRole(ms: Members): RoleBinding {
    RoleBinding(RoleNames(ms, false), RoleNames(ms, false))
  }

  /** One role sent: in force when the call succeeds, else the old one stays or is gone. */
  function SendRole(roles: map<string, RoleBinding>, id: string, role: RoleBinding, ok: bool, gone: bool)
    : map<string, RoleBinding>
  {
    if ok then roles[id := role] else if gone then roles - {id} else roles
  }

  /** UpdateRoleBinding: both roles are sent, whatever becomes of the first. */
  function SendRoles(s: Stores, org: OrgRecord, c: Calls): Stores {
    s.(adminRoles := SendRole(s.adminRoles, org.id, AdminRole(org.members), c.adminRole, c.adminGone),
       editRoles := SendRole(s.editRoles, org.id, EditRole(org.members), c.editRole, c.editGone))
  }

  function PutOrg(s: Stores, org: OrgRecord): Stores {
    s.(orgs := s.orgs[org.id := org])
  }

  function PutProfile(s: Stores, user: string, p: Profile): Stores {
    s.(profiles := s.profiles[user := p])
  }

  // ----- requests -----

  /** The body may bring a list and a counter along. */
  function SignUp(s: Stores, user: string, details: Credentials, body: Profile, c: Calls): Reply {
    if !ValidateUserName(user) then Reply(s, Refused(ERR_NAME_INVALID))
    else if !details.email then Reply(s, Refused(ERR_EMAIL_INVALID))
    else if |details.password| > 12 || |details.password| < 8 then Reply(s, Refused(ERR_PASSWORD_LENGTH))
    else if user in s.profiles then Reply(s, Refused(ERR_USER_EXIST))
    else if !c.ldap then Reply(s, Exited)
    else if !c.profileWrite then Reply(s, Failed)
    else Reply(PutProfile(s, user, body), Done)
  }

  function Create(s: Stores, user: string, name: string, body: Members, suffix: string, now: string, c: Calls): Reply {
    if user !in s.profiles then Reply(s, Refused(ERR_NOT_FOUND))
    else if |name| < 2 then Reply(s, Refused(ERR_NAME_TOO_SHORT))
    else if HasName(s.profiles[user].orgList, name) then Reply(s, Refused(ERR_ORG_EXIST))
    else CreateOrg(s, user, s.profiles[user], name, body, suffix, now, c)
  }

  function CreateOrg(s: Stores, user: string, p: Profile, name: string, body: Members, suffix: string, now: string,
                     c: Calls): Reply
  {
    if p.orgUsed >= MAX_ORGS then Reply(s, Refused(ERR_QUOTA_EXCEEDED))
    else if !c.project || !c.orgWrite then Reply(s, Failed)
    else
      var id := OrgID(user, suffix);
      var creator := OrgMember(user, true, user, now, Joined);
      var s1 := PutOrg(s, OrgRecord(id, name, user, now, body + [creator], true));
      if !c.profileWrite then Reply(s1, Failed)
      else Reply(PutProfile(s1, user, Profile(p.orgList + [OrgBrief(id, name)], p.orgUsed + 1)), Done)
  }

  function Delete(s: Stores, user: string, id: string, c: Calls): Reply {
    if user !in s.profiles then Reply(s, Refused(ERR_NOT_FOUND))
    else if !HasID(s.profiles[user].orgList, id) then Reply(s, Refused(ERR_ORG_NOT_FOUND))
    else DeleteOrg(s, user, s.profiles[user], id, c)
  }

  /** The creator's profile is read again after the caller's is written; the last two calls are unchecked. */
  function DeleteOrg(s: Stores, user: string, p: Profile, id: string, c: Calls): Reply {
    if id !in s.orgs then Reply(s, Failed)
    else
      var org := s.orgs[id];
      if !HasAdmin(org.members, user) then Reply(s, Refused(ERR_PERMISSION_DENIED))
      else if JoinedCount(org.members) > 1 then Reply(s, Refused(ERR_ORG_NOT_EMPTY))
      else if !c.project || !c.profileWrite then Reply(s, Failed)
      else
        var s1 := PutProfile(s, user, p.(orgList := DropID(p.orgList, id)));
        if org.createBy !in s1.profiles then Reply(s1, Crashed)
        else
          var creator := s1.profiles[org.createBy];
          var s2 := if c.creatorWrite then PutProfile(s1, org.createBy, creator.(orgUsed := creator.orgUsed - 1))
                    else s1;
          Reply(if c.orgDelete then s2.(orgs := s2.orgs - {org.id}) else s2, Done)
  }

  /** No gate: the caller need not be listed. */
  function Accept(s: Stores, user: string, id: string, now: string, c: Calls): Reply {
    if user !in s.profiles then Reply(s, Refused(ERR_NOT_FOUND))
    else if id !in s.orgs then Reply(s, Failed)
    else
      var org := s.orgs[id].(members := WithJoined(s.orgs[id].members, user, now));
      if !c.orgWrite then Reply(s, Failed)
      else
        var s1 := PutOrg(s, org);
        var p := s1.profiles[user];
        if !c.profileWrite then Reply(s1, Failed)
        else Reply(PutProfile(s1, user, p.(orgList := AddID(p.orgList, org.id, org.name))), Done)
  }

  function Leave(s: Stores, user: string, id: string, c: Calls): Reply {
    if user !in s.profiles then Reply(s, Refused(ERR_NOT_FOUND))
    else if !HasID(s.profiles[user].orgList, id) then Reply(s, Refused(ERR_ORG_NOT_FOUND))
    else OrgLeave(s, user, s.profiles[user], id, c)
  }

  function OrgLeave(s: Stores, user: string, p: Profile, id: string, c: Calls): Reply {
    if id !in s.orgs then Reply(s, Failed)
    else
      var org := s.orgs[id];
      if IsLastAdmin(org.members, user) then Reply(s, Refused(ERR_LAST_ADMIN))
      else if SweepOutOfRange(org.members, user) then Reply(s, Crashed)
      else if !c.orgWrite then Reply(s, Failed)
      else
        var s1 := PutOrg(s, org.(members := Swept(org.members, user)));
        if !c.profileWrite then Reply(s1, Failed)
        else Reply(PutProfile(s1, user, p.(orgList := DropID(p.orgList, id))), Done)
  }

  /** The gate shared by invite, remove and privileged. */
  function Gate(s: Stores, user: string, id: string): Outcome {
    if user !in s.profiles then Refused(ERR_NOT_FOUND)
    else if !HasID(s.profiles[user].orgList, id) then Refused(ERR_ORG_NOT_FOUND)
    else Done
  }

  function Invite(s: Stores, user: string, id: string, member: OrgMember, c: Calls): Reply {
    if Gate(s, user, id) != Done then Reply(s, Gate(s, user, id))
    else OrgInvite(s, user, id, member, c)
  }

  /** A missing organisation falls through to UpdateRoleBinding with a nil record. */
  function OrgInvite(s: Stores, user: string, id: string, member: OrgMember, c: Calls): Reply {
    if id !in s.orgs then Reply(s, Crashed)
    else
      var org := s.orgs[id];
      if !HasAdmin(org.members, user) then Reply(s, Refused(ERR_PERMISSION_DENIED))
      else if Listed(org.members, member.memberName) then
        Reply(s, Refused(if StatusOf(org.members, member.memberName) == Invited
                         then ERR_USER_INVITED else ERR_USER_EXISTS_IN_ORG))
      else if member.memberName !in s.profiles then Reply(s, Refused(ERR_USER_NOT_REGISTERED))
      else
        var m := member.(status := Invited, privilegedBy := if member.isAdmin then user else member.privilegedBy);
        var org1 := org.(members := org.members + [m]);
        var s1 := SendRoles(s, org1, c);
        if !c.adminRole || !c.editRole || !c.orgWrite then Reply(s1, Failed)
        else Reply(PutOrg(s1, org1), Done)
  }

  function Remove(s: Stores, user: string, id: string, member: string, c: Calls): Reply {
    if Gate(s, user, id) != Done then Reply(s, Gate(s, user, id))
    else OrgRemoveMember(s, user, id, member, c)
  }

  function OrgRemoveMember(s: Stores, user: string, id: string, member: string, c: Calls): Reply {
    if user == member then Reply(s, Refused(ERR_ACTION_NOT_SUPPORT))
    else if id !in s.orgs then Reply(s, Failed)
    else
      var org := s.orgs[id];
      if !HasAdmin(org.members, user) then Reply(s, Refused(ERR_PERMISSION_DENIED))
      else if !Listed(org.members, member) then Reply(s, Refused(ERR_USER_NOT_FOUND))
      else if SweepOutOfRange(org.members, member) then Reply(s, Crashed)
      else if !c.orgWrite then Reply(s, Failed)
      else
        var org1 := org.(members := Swept(org.members, member));
        var s1 := SendRoles(PutOrg(s, org1), org1, c);
        if !c.adminRole || !c.editRole || member !in s1.profiles || !c.profileWrite then Reply(s1, Failed)
        else
          var p := s1.profiles[member];
          Reply(PutProfile(s1, member, p.(orgList := DropID(p.orgList, id))), Done)
  }

  function Privilege(s: Stores, user: string, id: string, member: string, isAdmin: bool, c: Calls): Reply {
    if Gate(s, user, id) != Done then Reply(s, Gate(s, user, id))
    else OrgPrivilege(s, user, id, member, isAdmin, c)
  }

  function OrgPrivilege(s: Stores, user: string, id: string, member: string, isAdmin: bool, c: Calls): Reply {
    if id !in s.orgs then Reply(s, Failed)
    else
      var org := s.orgs[id];
      if !HasAdmin(org.members, user) then Reply(s, Refused(ERR_PERMISSION_DENIED))
      else if IsLastAdmin(org.members, member) then Reply(s, Refused(ERR_LAST_ADMIN))
      else if !Listed(org.members, member) then Reply(s, Refused(ERR_USER_NOT_FOUND))
      else
        var org1 := org.(members := WithPrivilege(org.members, member, isAdmin, user));
        var s1 := SendRoles(s, org1, c);
        if !c.adminRole || !c.editRole || !c.orgWrite then Reply(s1, Failed)
        else Reply(PutOrg(s1, org1), Done)
  }
}
