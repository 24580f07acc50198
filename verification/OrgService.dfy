/** The request code of user.go and organization.go as it runs: objects read from the stores, changed in
    place and written back. Every handler is proved to act on the stores as its function in OrgStores. */
module OrgService {
  import opened Membership
  import opened Organization
  import opened Validation
  import opened OrgStores

  /** dbstore, together with the role bindings in force in the cluster. */
  class Database {
    var orgs: map<string, OrgRecord>
    var profiles: map<string, Profile>
    var adminRoles: map<string, RoleBinding>
    var editRoles: map<string, RoleBinding>

    constructor ()
      ensures State() == Stores(map[], map[], map[], map[])
    {
      orgs, profiles, adminRoles, editRoles := map[], map[], map[], map[];
    }

    function State(): Stores
      reads this
    {
      Stores(orgs, profiles, adminRoles, editRoles)
    }

    /** SetValue of an organisation; `ok` is the answer of the store. */
    method SetOrg(org: Orgnazition, ok: bool)
      requires org.Valid()
      modifies this`orgs
      ensures State() == if ok then PutOrg(old(State()), org.Record()) else old(State())
    {
      if ok {
        orgs := orgs[org.id := OrgRecord(org.id, org.name, org.createBy, org.createTime,
                                         org.backing[..org.length], org.roleBinding)];
      }
    }

    method SetProfile(user: UserInfo, ok: bool)
      modifies this`profiles
      ensures State() == if ok then PutProfile(old(State()), user.username, user.Stored()) else old(State())
    {
      if ok {
        profiles := profiles[user.username := Profile(user.orgList, user.orgUsed)];
      }
    }

    /** OpenshiftUpdateRole of the admin role, or of the edit role. */
    method OpenshiftUpdateRole(id: string, admin: bool, role: RoleBinding, ok: bool, gone: bool)
      modifies this`adminRoles, this`editRoles
      ensures State() ==
        if admin then old(State()).(adminRoles := SendRole(old(adminRoles), id, role, ok, gone))
        else old(State()).(editRoles := SendRole(old(editRoles), id, role, ok, gone))
    {
      if !ok && gone && admin {
        adminRoles := adminRoles - {id};
      } else if !ok && gone {
        editRoles := editRoles - {id};
      }
      if ok && admin {
        adminRoles := adminRoles[id := role];
      } else if ok {
        editRoles := editRoles[id := role];
      }
    }
  }

  class UserInfo {
    var username: string
    var orgList: seq<OrgBrief>
    var orgUsed: int

    function Stored(): Profile
      reads this
    {
      Profile(orgList, orgUsed)
    }

    constructor (username: string, p: Profile)
      ensures this.username == username && Stored() == p
    {
      this.username, orgList, orgUsed := username, p.orgList, p.orgUsed;
    }

    method CheckIfOrgExist(orgName: string) returns (found: bool)
      ensures found <==> HasName(orgList, orgName)
    {
      for i := 0 to |orgList|
        invariant forall j :: 0 <= j < i ==> orgList[j].orgName != orgName
      {
        if orgList[i].orgName == orgName { return true; }
      }
      return false;
    }

    method CheckIfOrgExistByID(id: string) returns (found: bool)
      ensures found <==> HasID(orgList, id)
    {
      for i := 0 to |orgList|
        invariant forall j :: 0 <= j < i ==> orgList[j].orgID != id
      {
        if orgList[i].orgID == id { return true; }
      }
      return false;
    }

    method DeleteOrgFromList(orgID: string)
      modifies this`orgList
      ensures orgList == DropID(old(orgList), orgID)
    {
      for i := 0 to |orgList|
        invariant orgList == old(orgList)
        invariant forall j :: 0 <= j < i ==> orgList[j].orgID != orgID
      {
        if orgList[i].orgID == orgID {
          DropIDAt(orgList, orgID, i);
          orgList := orgList[..i] + orgList[i + 1..];
          return;
        }
      }
      DropIDAt(orgList, orgID, |orgList|);
    }

    method AddOrgToList(id: string, name: string)
      modifies this`orgList
      ensures orgList == AddID(old(orgList), id, name)
    {
      for i := 0 to |orgList|
        invariant orgList == old(orgList)
        invariant forall j :: 0 <= j < i ==> orgList[j].orgID != id
      {
        if orgList[i].orgID == id { return; }
      }
      orgList := orgList + [OrgBrief(id, name)];
    }

    /** Splits the members into the two roles and sends both; an error of either call is returned. */
    method UpdateRoleBinding(db: Database, org: Orgnazition, c: Calls) returns (ok: bool)
      requires org.Valid()
      modifies db`adminRoles, db`editRoles
      ensures ok <==> c.adminRole && c.editRole
      ensures db.State() == SendRoles(old(db.State()), org.Record(), c)
    {
      var adminSubjects, adminNames, editSubjects, editNames: seq<string> := [], [], [], [];
      ghost var ms := org.MemberList();
      for i := 0 to org.length
        invariant adminSubjects == adminNames == RoleNames(ms[..i], true)
        invariant editSubjects == editNames == RoleNames(ms[..i], false)
      {
        var member := org.backing[i];
        assert ms[..i + 1][..i] == ms[..i] && ms[..i + 1][i] == member;
        if member.isAdmin {
          adminSubjects := adminSubjects + [member.memberName];
          adminNames := adminNames + [member.memberName];
        } else {
          editSubjects := editSubjects + [member.memberName];
          editNames := editNames + [member.memberName];
        }
      }
      assert ms[..org.length] == ms;
      db.OpenshiftUpdateRole(org.id, true, RoleBinding(adminSubjects, adminNames), c.adminRole, c.adminGone);
      db.OpenshiftUpdateRole(org.id, false, RoleBinding(editSubjects, editNames), c.editRole, c.editGone);
      ok := c.adminRole && c.editRole;
    }

    method CreateOrg(db: Database, name: string, body: Members, suffix: string, now: string, c: Calls)
      returns (outcome: Outcome)
      modifies this, db
      ensures Reply(db.State(), outcome)
           == OrgStores.CreateOrg(old(db.State()), old(username), old(Stored()), name, body, suffix, now, c)
    {
      if orgUsed >= MAX_ORGS {
        return Refused(ERR_QUOTA_EXCEEDED);
      }
      var org := new Orgnazition(OrgRecord(OrgID(username, suffix), name, username, now, body, false));
      org.AppendMember(OrgMember(username, true, username, now, Joined));
      if !c.project {
        return Failed;
      }
      org.roleBinding := true;
      db.SetOrg(org, c.orgWrite);
      if !c.orgWrite {
        return Failed;
      }
      orgList := orgList + [OrgBrief(org.id, org.name)];
      orgUsed := orgUsed + 1;
      db.SetProfile(this, c.profileWrite);
      return if c.profileWrite then Done else Failed;
    }

    method DeleteOrg(db: Database, orgID: string, c: Calls) returns (outcome: Outcome)
      modifies this, db
      ensures Reply(db.State(), outcome)
           == OrgStores.DeleteOrg(old(db.State()), old(username), old(Stored()), orgID, c)
    {
      if orgID !in db.orgs {
        return Failed;
      }
      var org := new Orgnazition(db.orgs[orgID]);
      var admin := org.IsAdmin(username);
      if !admin {
        return Refused(ERR_PERMISSION_DENIED);
      }
      var joined := org.JoinedMemberCnt();
      if joined > 1 {
        return Refused(ERR_ORG_NOT_EMPTY);
      }
      var creator := org.createBy;
      if !c.project {
        return Failed;
      }
      DeleteOrgFromList(orgID);
      db.SetProfile(this, c.profileWrite);
      if !c.profileWrite {
        return Failed;
      }
      if creator !in db.profiles {
        return Crashed;
      }
      var createrinfo := new UserInfo(creator, db.profiles[creator]);
      createrinfo.orgUsed := createrinfo.orgUsed - 1;
      db.SetProfile(createrinfo, c.creatorWrite);
      if c.orgDelete {
        db.orgs := db.orgs - {org.id};
      }
      return Done;
    }

    method OrgLeave(db: Database, orgID: string, c: Calls) returns (outcome: Outcome)
      modifies this, db
      ensures Reply(db.State(), outcome)
           == OrgStores.OrgLeave(old(db.State()), old(username), old(Stored()), orgID, c)
    {
      if orgID !in db.orgs {
        return Failed;
      }
      var org := new Orgnazition(db.orgs[orgID]);
      var last := org.LastAdmin(username);
      if last {
        return Refused(ERR_LAST_ADMIN);
      }
      var inRange := org.RemoveMember(username);
      if !inRange {
        return Crashed;
      }
      db.SetOrg(org, c.orgWrite);
      if !c.orgWrite {
        return Failed;
      }
      DeleteOrgFromList(orgID);
      db.SetProfile(this, c.profileWrite);
      return if c.profileWrite then Done else Failed;
    }

    /** The caller's profile is read again after the organisation is written. */
    method OrgJoin(db: Database, orgID: string, now: string, c: Calls) returns (outcome: Outcome)
      requires username in db.profiles
      modifies this, db
      ensures Reply(db.State(), outcome) == Accept(old(db.State()), old(username), orgID, now, c)
    {
      if orgID !in db.orgs {
        return Failed;
      }
      var org := new Orgnazition(db.orgs[orgID]);
      org.MemberJoined(username, now);
      db.SetOrg(org, c.orgWrite);
      if !c.orgWrite {
        return Failed;
      }
      var user := new UserInfo(username, db.profiles[username]);
      user.AddOrgToList(org.id, org.name);
      db.SetProfile(user, c.profileWrite);
      return if c.profileWrite then Done else Failed;
    }

    method OrgInvite(db: Database, member: OrgMember, orgID: string, c: Calls) returns (outcome: Outcome)
      modifies db
      ensures Reply(db.State(), outcome) == OrgStores.OrgInvite(old(db.State()), username, orgID, member, c)
    {
      if orgID !in db.orgs {
        return Crashed;
      }
      var org := new Orgnazition(db.orgs[orgID]);
      var admin := org.IsAdmin(username);
      if !admin {
        return Refused(ERR_PERMISSION_DENIED);
      }
      var exist := org.IsMemberExist(member.memberName);
      if exist {
        var status := org.MemberStatus(member.memberName);
        return Refused(if status == Invited then ERR_USER_INVITED else ERR_USER_EXISTS_IN_ORG);
      }
      if member.memberName !in db.profiles {
        return Refused(ERR_USER_NOT_REGISTERED);
      }
      var m := member;
      if m.isAdmin {
        m := m.(privilegedBy := username);
      }
      m := m.(status := Invited);
      org.AppendMember(m);
      var sent := UpdateRoleBinding(db, org, c);
      if !sent {
        return Failed;
      }
      db.SetOrg(org, c.orgWrite);
      return if c.orgWrite then Done else Failed;
    }

    method OrgRemoveMember(db: Database, member: string, orgID: string, c: Calls) returns (outcome: Outcome)
      modifies db
      ensures Reply(db.State(), outcome) == OrgStores.OrgRemoveMember(old(db.State()), username, orgID, member, c)
    {
      if username == member {
        return Refused(ERR_ACTION_NOT_SUPPORT);
      }
      if orgID !in db.orgs {
        return Failed;
      }
      var org := new Orgnazition(db.orgs[orgID]);
      var admin := org.IsAdmin(username);
      if !admin {
        return Refused(ERR_PERMISSION_DENIED);
      }
      var exist := org.IsMemberExist(member);
      if !exist {
        return Refused(ERR_USER_NOT_FOUND);
      }
      var inRange := org.RemoveMember(member);
      if !inRange {
        return Crashed;
      }
      db.SetOrg(org, c.orgWrite);
      if !c.orgWrite {
        return Failed;
      }
      var sent := UpdateRoleBinding(db, org, c);
      if !sent {
        return Failed;
      }
      if member !in db.profiles {
        return Failed;
      }
      var minfo := new UserInfo(member, db.profiles[member]);
      minfo.DeleteOrgFromList(orgID);
      db.SetProfile(minfo, c.profileWrite);
      return if c.profileWrite then Done else Failed;
    }

    method OrgPrivilege(db: Database, member: string, isAdmin: bool, orgID: string, c: Calls)
      returns (outcome: Outcome)
      modifies db
      ensures Reply(db.State(), outcome)
           == OrgStores.OrgPrivilege(old(db.State()), username, orgID, member, isAdmin, c)
    {
      if orgID !in db.orgs {
        return Failed;
      }
      var org := new Orgnazition(db.orgs[orgID]);
      var admin := org.IsAdmin(username);
      if !admin {
        return Refused(ERR_PERMISSION_DENIED);
      }
      var last := org.LastAdmin(member);
      if last {
        return Refused(ERR_LAST_ADMIN);
      }
      var exist := org.IsMemberExist(member);
      if !exist {
        return Refused(ERR_USER_NOT_FOUND);
      }
      var found := org.Privilege(member, isAdmin, username);
      if !found {
        return Refused(ERR_USER_NOT_FOUND);
      }
      var sent := UpdateRoleBinding(db, org, c);
      if !sent {
        return Failed;
      }
      db.SetOrg(org, c.orgWrite);
      return if c.orgWrite then Done else Failed;
    }
  }

  // ----- handlers -----

  method SignUpUser(db: Database, username: string, details: Credentials, body: Profile, c: Calls)
    returns (outcome: Outcome)
    modifies db
    ensures Reply(db.State(), outcome) == SignUp(old(db.State()), username, details, body, c)
  {
    if !ValidateUserName(username) {
      return Refused(ERR_NAME_INVALID);
    }
    if !details.email {
      return Refused(ERR_EMAIL_INVALID);
    }
    if |details.password| > 12 || |details.password| < 8 {
      return Refused(ERR_PASSWORD_LENGTH);
    }
    if username in db.profiles {
      return Refused(ERR_USER_EXIST);
    }
    if !c.ldap {
      return Exited;
    }
    var user := new UserInfo(username, body);
    db.SetProfile(user, c.profileWrite);
    return if c.profileWrite then Done else Failed;
  }

  method CreateOrganization(db: Database, username: string, name: string, body: Members, suffix: string,
                            now: string, c: Calls)
    returns (outcome: Outcome)
    modifies db
    ensures Reply(db.State(), outcome) == Create(old(db.State()), username, name, body, suffix, now, c)
  {
    if username !in db.profiles {
      return Refused(ERR_NOT_FOUND);
    }
    var user := new UserInfo(username, db.profiles[username]);
    if |name| < 2 {
      return Refused(ERR_NAME_TOO_SHORT);
    }
    var exist := user.CheckIfOrgExist(name);
    if exist {
      return Refused(ERR_ORG_EXIST);
    }
    outcome := user.CreateOrg(db, name, body, suffix, now, c);
  }

  method DeleteOrganization(db: Database, username: string, orgID: string, c: Calls) returns (outcome: Outcome)
    modifies db
    ensures Reply(db.State(), outcome) == Delete(old(db.State()), username, orgID, c)
  {
    if username !in db.profiles {
      return Refused(ERR_NOT_FOUND);
    }
    var user := new UserInfo(username, db.profiles[username]);
    var listed := user.CheckIfOrgExistByID(orgID);
    if !listed {
      return Refused(ERR_ORG_NOT_FOUND);
    }
    outcome := user.DeleteOrg(db, orgID, c);
  }

  method JoinOrganization(db: Database, username: string, orgID: string, now: string, c: Calls)
    returns (outcome: Outcome)
    modifies db
    ensures Reply(db.State(), outcome) == Accept(old(db.State()), username, orgID, now, c)
  {
    if username !in db.profiles {
      return Refused(ERR_NOT_FOUND);
    }
    var user := new UserInfo(username, db.profiles[username]);
    outcome := user.OrgJoin(db, orgID, now, c);
  }

  method LeaveOrganization(db: Database, username: string, orgID: string, c: Calls) returns (outcome: Outcome)
    modifies db
    ensures Reply(db.State(), outcome) == Leave(old(db.State()), username, orgID, c)
  {
    if username !in db.profiles {
      return Refused(ERR_NOT_FOUND);
    }
    var user := new UserInfo(username, db.profiles[username]);
    var listed := user.CheckIfOrgExistByID(orgID);
    if !listed {
      return Refused(ERR_ORG_NOT_FOUND);
    }
    outcome := user.OrgLeave(db, orgID, c);
  }

  datatype Action = RemoveAction | InviteAction | PrivilegedAction

  /** The actions of ManageOrganization behind the shared gate. */
  method ManageOrganization(db: Database, username: string, action: Action, member: OrgMember, orgID: string, c: Calls)
    returns (outcome: Outcome)
    modifies db
    ensures Reply(db.State(), outcome) == match action
      case RemoveAction => Remove(old(db.State()), username, orgID, member.memberName, c)
      case InviteAction => Invite(old(db.State()), username, orgID, member, c)
      case PrivilegedAction => Privilege(old(db.State()), username, orgID, member.memberName, member.isAdmin, c)
  {
    if username !in db.profiles {
      return Refused(ERR_NOT_FOUND);
    }
    var user := new UserInfo(username, db.profiles[username]);
    var listed := user.CheckIfOrgExistByID(orgID);
    if !listed {
      return Refused(ERR_ORG_NOT_FOUND);
    }
    match action
    case RemoveAction => outcome := user.OrgRemoveMember(db, member.memberName, orgID, c);
    case InviteAction => outcome := user.OrgInvite(db, member, orgID, c);
    case PrivilegedAction => outcome := user.OrgPrivilege(db, member.memberName, member.isAdmin, orgID, c);
  }
}
