/** The requests against the simplest picture of them: who stands where in which organisation. Each
    request goes through exactly when the matrix permits it, and then changes one cell. */
module OrgMatrix {
  import opened Membership
  import opened Organization
  import opened Validation
  import opened OrgStores
  import opened OrgSafety

  datatype Standing = Outsider | Member(isAdmin: bool, status: MemberStatus)

  function StandingOf(m: OrgMember): Standing {
    Member(m.isAdmin, m.status)
  }

  function StandingIn(ms: Members, user: string): Standing {
    if ms == [] then Outsider
    else if ms[0].memberName == user then StandingOf(ms[0])
    else StandingIn(ms[1..], user)
  }

  /** The cell of a user and an organisation. */
  function Cell(s: Stores, user: string, id: string): Standing {
    if id in s.orgs then StandingIn(s.orgs[id].members, user) else Outsider
  }

  /** The user is a joined member. */
  predicate In(s: Stores, user: string, id: string) {
    Cell(s, user, id).Member? && Cell(s, user, id).status == Joined
  }

  const BOSS: Standing := Member(true, Joined)

  // ----- cells and scans -----

  lemma {:induction false} StandingAt(ms: Members, i: nat)
    requires DistinctNames(ms) && i < |ms|
    ensures StandingIn(ms, ms[i].memberName) == StandingOf(ms[i])
  {
    if i > 0 {
      StandingAt(ms[1..], i - 1);
    }
  }

  lemma {:induction false} StandingFrom(ms: Members, user: string) returns (i: nat)
    requires StandingIn(ms, user).Member?
    ensures i < |ms| && ms[i].memberName == user && StandingIn(ms, user) == StandingOf(ms[i])
  {
    if ms[0].memberName == user {
      i := 0;
    } else {
      i := StandingFrom(ms[1..], user);
      i := i + 1;
    }
  }

  lemma {:induction false} ScansRead(ms: Members, user: string)
    requires DistinctNames(ms)
    ensures Listed(ms, user) <==> StandingIn(ms, user).Member?
    ensures HasAdmin(ms, user) <==> StandingIn(ms, user).Member? && StandingIn(ms, user).isAdmin
    ensures HasJoined(ms, user) <==> StandingIn(ms, user).Member? && StandingIn(ms, user).status == Joined
    ensures StandingIn(ms, user).Member? ==> StatusOf(ms, user) == StandingIn(ms, user).status
  {
    if Listed(ms, user) {
      var i :| 0 <= i < |ms| && ms[i].memberName == user;
      StandingAt(ms, i);
      FirstStatus(ms, user, i);
      assert forall j :: 0 <= j < |ms| && ms[j].memberName == user ==> j == i;
    } else if StandingIn(ms, user).Member? {
      var i := StandingFrom(ms, user);
    }
  }

  lemma {:induction false} TwoJoinedAdmins(ms: Members, i: nat, j: nat)
    requires i < j < |ms| && JoinedAdmin(ms[i]) && JoinedAdmin(ms[j])
    ensures JoinedAdminCount(ms) >= 2
  {
    assert ms == ms[..j] + ms[j..];
    JoinedAdminCountConcat(ms[..j], ms[j..]);
    assert JoinedAdmin(ms[..j][i]) && JoinedAdmin(ms[j..][0]);
    JoinedAdminCountPositive(ms[..j]);
    JoinedAdminCountPositive(ms[j..]);
  }

  /** Every joined admin is this one. */
  ghost predicate OnlyBoss(ms: Members, user: string) {
    && StandingIn(ms, user) == BOSS
    && forall other :: StandingIn(ms, other) == BOSS ==> other == user
  }

  lemma {:induction false} CountIsOne(ms: Members, user: string)
    requires DistinctNames(ms) && StandingIn(ms, user) == BOSS
    ensures JoinedAdminCount(ms) == 1 <==> OnlyBoss(ms, user)
  {
    var i := StandingFrom(ms, user);
    if JoinedAdminCount(ms) == 1 {
      forall other | StandingIn(ms, other) == BOSS ensures other == user {
        var j := StandingFrom(ms, other);
        if i < j { TwoJoinedAdmins(ms, i, j); }
        if j < i { TwoJoinedAdmins(ms, j, i); }
      }
    } else {
      var j := AnotherJoinedAdmin(ms, i);
      StandingAt(ms, j);
      assert ms[j].memberName != user;
    }
  }

  /** Every joined member is this one. */
  ghost predicate OnlyMember(ms: Members, user: string) {
    && StandingIn(ms, user).Member? && StandingIn(ms, user).status == Joined
    && forall other :: StandingIn(ms, other).Member? && StandingIn(ms, other).status == Joined ==> other == user
  }

  lemma {:induction false} JoinedAlone(ms: Members, user: string)
    requires DistinctNames(ms) && StandingIn(ms, user).Member? && StandingIn(ms, user).status == Joined
    ensures JoinedCount(ms) <= 1 <==> OnlyMember(ms, user)
  {
    var i := StandingFrom(ms, user);
    if JoinedCount(ms) <= 1 {
      forall other | StandingIn(ms, other).Member? && StandingIn(ms, other).status == Joined ensures other == user {
        var j := StandingFrom(ms, other);
        OnlyJoined(ms, i, j);
      }
    } else {
      var a, b := TwoJoined(ms);
      StandingAt(ms, a);
      StandingAt(ms, b);
    }
  }

  lemma {:induction false} TwoJoined(ms: Members) returns (a: nat, b: nat)
    requires JoinedCount(ms) >= 2
    ensures a < b < |ms| && ms[a].status == Joined && ms[b].status == Joined
  {
    var last := |ms| - 1;
    if ms[last].status == Joined {
      b := last;
      a := OneJoined(ms[..last]);
    } else {
      a, b := TwoJoined(ms[..last]);
    }
  }

  lemma {:induction false} OneJoined(ms: Members) returns (a: nat)
    requires JoinedCount(ms) >= 1
    ensures a < |ms| && ms[a].status == Joined
  {
    var last := |ms| - 1;
    if ms[last].status == Joined {
      a := last;
    } else {
      a := OneJoined(ms[..last]);
    }
  }

  // ----- cells and changes -----

  lemma {:induction false} AfterWithout(ms: Members, gone: string, user: string)
    ensures StandingIn(Without(ms, gone), user) == if user == gone then Outsider else StandingIn(ms, user)
  {
    if ms != [] {
      AfterWithout(ms[1..], gone, user);
      if ms[0].memberName == gone {
        assert Without(ms, gone) == Without(ms[1..], gone);
      } else {
        assert Without(ms, gone)[1..] == Without(ms[1..], gone);
      }
    }
  }

  lemma {:induction false} AfterAppend(ms: Members, m: OrgMember, user: string)
    ensures StandingIn(ms + [m], user) ==
      (if StandingIn(ms, user).Member? then StandingIn(ms, user)
       else if user == m.memberName then StandingOf(m) else Outsider)
  {
    if ms == [] {
      assert ms + [m] == [m];
    } else {
      AfterAppend(ms[1..], m, user);
      assert (ms + [m])[1..] == ms[1..] + [m];
    }
  }

  lemma {:induction false} AfterJoined(ms: Members, who: string, now: string, user: string)
    ensures StandingIn(WithJoined(ms, who, now), user) ==
      (if user == who && StandingIn(ms, user).Member? then StandingIn(ms, user).(status := Joined)
       else StandingIn(ms, user))
  {
    if ms != [] {
      AfterJoined(ms[1..], who, now, user);
      assert WithJoined(ms, who, now)[1..] == WithJoined(ms[1..], who, now);
    }
  }

  lemma {:induction false} AfterPrivilege(ms: Members, who: string, isAdmin: bool, granter: string, user: string)
    ensures StandingIn(WithPrivilege(ms, who, isAdmin, granter), user) ==
      (if user == who && StandingIn(ms, user).Member? then StandingIn(ms, user).(isAdmin := isAdmin)
       else StandingIn(ms, user))
  {
    if ms != [] && ms[0].memberName != who {
      AfterPrivilege(ms[1..], who, isAdmin, granter, user);
      assert WithPrivilege(ms, who, isAdmin, granter)[1..] == WithPrivilege(ms[1..], who, isAdmin, granter);
    }
  }

  /** One cell changes, all others stay. */
  ghost predicate OneCell(s: Stores, t: Stores, user: string, id: string, standing: Standing) {
    forall u, i :: Cell(t, u, i) == if u == user && i == id then standing else Cell(s, u, i)
  }

  /** What a caller who is not a joined member is told: user not found, or organisation not found. */
  function GateRefusal(s: Stores, user: string): Outcome {
    Refused(if user in s.profiles then 14040 else 1404)
  }

  /** The gate, read off the matrix: the caller is a joined member. */
  lemma {:induction false} GateReads(s: Stores, user: string, id: string)
    requires Inv(s)
    ensures Points(s, user, id) <==> In(s, user, id)
    ensures id in s.orgs ==> DistinctNames(s.orgs[id].members) && s.orgs[id].id == id
  {
    assert Points(s, user, id) <==> JoinedIn(s, user, id);
    if id in s.orgs {
      assert GoodOrg(s.orgs[id], id);
      ScansRead(s.orgs[id].members, user);
    }
  }

  function DoneIf(ok: bool): Outcome {
    if ok then Done else Failed
  }

  // ----- requests, whatever their calls answer -----

  /** The checks of a sign-up in their order, and what it stores. */
  lemma {:induction false} SignUpCases(s: Stores, user: string, details: Credentials, body: Profile, c: Calls)
    ensures var reply := SignUp(s, user, details, body, c);
      && reply.outcome == (
           if !(2 <= |user| <= 63 && LabelForm(user)) then Refused(14008)
           else if !details.email then Refused(14007)
           else if !(8 <= |details.password| <= 12) then Refused(14006)
           else if user in s.profiles then Refused(14091)
           else if !c.ldap then Exited
           else DoneIf(c.profileWrite))
      && (reply.outcome != Done ==> reply.stores == s)
      && (reply.outcome == Done ==> reply.stores.orgs == s.orgs && reply.stores.profiles == s.profiles[user := body])
  {
    UserNameMeaning(user);
  }

  lemma {:induction false} AcceptCell(s: Stores, user: string, id: string, now: string, c: Calls)
    requires Inv(s)
    ensures var reply := Accept(s, user, id, now, c);
      && reply.outcome == (
           if user !in s.profiles then Refused(1404)
           else if id !in s.orgs then Failed
           else DoneIf(c.orgWrite && c.profileWrite))
      && (if user in s.profiles && id in s.orgs && c.orgWrite
          then OneCell(s, reply.stores, user, id,
                 if Cell(s, user, id).Member? then Cell(s, user, id).(status := Joined) else Outsider)
          else reply.stores == s)
      && (reply.outcome != Done ==> reply.stores.profiles == s.profiles)
  {
    GateReads(s, user, id);
    if id in s.orgs {
      forall u ensures StandingIn(WithJoined(s.orgs[id].members, user, now), u) ==
        (if u == user && Cell(s, u, id).Member? then Cell(s, u, id).(status := Joined) else Cell(s, u, id))
      {
        AfterJoined(s.orgs[id].members, user, now, u);
      }
    }
  }

  lemma {:induction false} LeaveCell(s: Stores, user: string, id: string, c: Calls)
    requires Inv(s)
    ensures var reply := Leave(s, user, id, c);
      var permitted := In(s, user, id) && !OnlyBoss(s.orgs[id].members, user);
      && reply.outcome == (
           if !In(s, user, id) then GateRefusal(s, user)
           else if !permitted then Refused(140011)
           else DoneIf(c.orgWrite && c.profileWrite))
      && (if permitted && c.orgWrite then OneCell(s, reply.stores, user, id, Outsider) else reply.stores == s)
      && (reply.outcome != Done ==> reply.stores.profiles == s.profiles)
  {
    GateReads(s, user, id);
    if Points(s, user, id) {
      var ms := s.orgs[id].members;
      ScansRead(ms, user);
      DistinctSweep(ms, user);
      if StandingIn(ms, user) == BOSS {
        CountIsOne(ms, user);
      }
      forall u ensures StandingIn(Without(ms, user), u) == if u == user then Outsider else StandingIn(ms, u) {
        AfterWithout(ms, user, u);
      }
    }
  }

  /** The invited entry in full: an admin is invited by the caller, and nobody is joined yet. */
  lemma {:induction false} InviteCell(s: Stores, user: string, id: string, member: OrgMember, c: Calls)
    requires Inv(s)
    ensures var reply := Invite(s, user, id, member, c);
      && reply.outcome == (
           if !In(s, user, id) then GateRefusal(s, user)
           else if !Cell(s, user, id).isAdmin then Refused(14030)
           else if Cell(s, member.memberName, id).Member? then
             Refused(if Cell(s, member.memberName, id).status == Invited then 140012 else 140013)
           else if member.memberName !in s.profiles then Refused(140014)
           else DoneIf(c.adminRole && c.editRole && c.orgWrite))
      && reply.stores.profiles == s.profiles
      && (reply.outcome != Done ==> reply.stores.orgs == s.orgs)
      && (reply.outcome == Done ==>
            && OneCell(s, reply.stores, member.memberName, id, Member(member.isAdmin, Invited))
            && reply.stores.orgs[id].members == s.orgs[id].members + [OrgMember(
                 member.memberName, member.isAdmin, if member.isAdmin then user else member.privilegedBy,
                 member.joinedAt, Invited)])
  {
    GateReads(s, user, id);
    if Points(s, user, id) {
      var ms := s.orgs[id].members;
      ScansRead(ms, user);
      ScansRead(ms, member.memberName);
      var m := member.(status := Invited, privilegedBy := if member.isAdmin then user else member.privilegedBy);
      forall u ensures StandingIn(ms + [m], u) ==
        (if StandingIn(ms, u).Member? then StandingIn(ms, u) else if u == m.memberName then StandingOf(m) else Outsider)
      {
        AfterAppend(ms, m, u);
      }
    }
  }

  /** Permitted in the matrix: a joined admin removes another member. */
  predicate MayRemove(s: Stores, user: string, id: string, member: string) {
    In(s, user, id) && user != member && Cell(s, user, id).isAdmin && Cell(s, member, id).Member?
  }

  /** A removal of a member without a profile is carried out although it reports an error. */
  lemma {:induction false} RemoveCell(s: Stores, user: string, id: string, member: string, c: Calls)
    requires Inv(s)
    ensures var reply := Remove(s, user, id, member, c);
      && reply.outcome == (
           if !In(s, user, id) then GateRefusal(s, user)
           else if user == member then Refused(14003)
           else if !Cell(s, user, id).isAdmin then Refused(14030)
           else if !Cell(s, member, id).Member? then Refused(14041)
           else DoneIf(c.orgWrite && c.adminRole && c.editRole && member in s.profiles && c.profileWrite))
      && (if MayRemove(s, user, id, member) && c.orgWrite
          then OneCell(s, reply.stores, member, id, Outsider) else reply.stores == s)
      && (reply.outcome != Done ==> reply.stores.profiles == s.profiles)
  {
    GateReads(s, user, id);
    if Points(s, user, id) {
      ScansRead(s.orgs[id].members, user);
      ScansRead(s.orgs[id].members, member);
    }
    if MayRemove(s, user, id, member) && c.orgWrite {
      RemoveWrites(s, user, id, member, c);
      var ms := s.orgs[id].members;
      forall u ensures StandingIn(Without(ms, member), u) == if u == member then Outsider else StandingIn(ms, u) {
        AfterWithout(ms, member, u);
      }
    } else {
      RemoveStops(s, user, id, member, c);
    }
  }

  /** Refused too when the member is an admin, joined or not, and the caller is the only joined admin. The entry
      names the caller as granter, whichever way the change goes. */
  lemma {:induction false} PrivilegeCell(s: Stores, user: string, id: string, member: string, isAdmin: bool, c: Calls)
    requires Inv(s)
    ensures var reply := Privilege(s, user, id, member, isAdmin, c);
      && reply.outcome == (
           if !In(s, user, id) then GateRefusal(s, user)
           else if !Cell(s, user, id).isAdmin then Refused(14030)
           else if Cell(s, member, id).Member? && Cell(s, member, id).isAdmin && OnlyBoss(s.orgs[id].members, user)
           then Refused(140011)
           else if !Cell(s, member, id).Member? then Refused(14041)
           else DoneIf(c.adminRole && c.editRole && c.orgWrite))
      && reply.stores.profiles == s.profiles
      && (reply.outcome != Done ==> reply.stores.orgs == s.orgs)
      && (reply.outcome == Done ==>
            OneCell(s, reply.stores, member, id, Cell(s, member, id).(isAdmin := isAdmin)))
      && (reply.outcome == Done ==> forall m :: m in reply.stores.orgs[id].members && m.memberName == member ==>
            m.privilegedBy == user)
  {
    GateReads(s, user, id);
    if Points(s, user, id) {
      var ms := s.orgs[id].members;
      ScansRead(ms, user);
      ScansRead(ms, member);
      if StandingIn(ms, user) == BOSS {
        CountIsOne(ms, user);
      }
      PrivilegeStanding(ms, member, isAdmin, user);
    }
  }

  lemma {:induction false} PrivilegeStanding(ms: Members, member: string, isAdmin: bool, granter: string)
    requires DistinctNames(ms)
    ensures forall u ::
      StandingIn(WithPrivilege(ms, member, isAdmin, granter), u) ==
      (if u == member && StandingIn(ms, u).Member? then StandingIn(ms, u).(isAdmin := isAdmin) else StandingIn(ms, u))
    ensures forall m :: m in WithPrivilege(ms, member, isAdmin, granter) && m.memberName == member ==>
      m.privilegedBy == granter
  {
    forall u ensures StandingIn(WithPrivilege(ms, member, isAdmin, granter), u) ==
      (if u == member && StandingIn(ms, u).Member? then StandingIn(ms, u).(isAdmin := isAdmin) else StandingIn(ms, u))
    {
      AfterPrivilege(ms, member, isAdmin, granter, u);
    }
    if Listed(ms, member) {
      var k := FirstEntry(ms, member);
      WithPrivilegeAt(ms, member, isAdmin, granter, k);
    } else {
      NothingToGrant(ms, member, isAdmin, granter);
    }
  }

  lemma {:induction false} NothingToGrant(ms: Members, member: string, isAdmin: bool, granter: string)
    requires !Listed(ms, member)
    ensures WithPrivilege(ms, member, isAdmin, granter) == ms
  {
    if ms != [] {
      assert forall i :: 0 <= i < |ms[1..]| ==> ms[1..][i] == ms[i + 1];
      NothingToGrant(ms[1..], member, isAdmin, granter);
    }
  }

  /** A deletion empties the organisation's column and touches no other. */
  lemma {:induction false} DeleteCells(s: Stores, user: string, id: string, c: Calls)
    requires Inv(s)
    ensures var reply := Delete(s, user, id, c);
      && reply.outcome == (
           if !In(s, user, id) then GateRefusal(s, user)
           else if !Cell(s, user, id).isAdmin then Refused(14030)
           else if !OnlyMember(s.orgs[id].members, user) then Refused(14009)
           else DoneIf(c.project && c.profileWrite))
      && (reply.outcome != Done ==> reply.stores == s)
      && (if reply.outcome == Done && c.orgDelete
          then forall u, i :: Cell(reply.stores, u, i) == if i == id then Outsider else Cell(s, u, i)
          else reply.stores.orgs == s.orgs)
  {
    GateReads(s, user, id);
    DeleteKeepsIff(s, user, id, c);
    if Points(s, user, id) {
      var ms := s.orgs[id].members;
      ScansRead(ms, user);
      JoinedAlone(ms, user);
    }
  }

  /** A create whose profile write fails has stored the organisation all the same. */
  lemma {:induction false} CreateCell(s: Stores, user: string, name: string, suffix: string, now: string, c: Calls)
    requires Inv(s) && OrgID(user, suffix) !in s.orgs
    ensures var reply := Create(s, user, name, [], suffix, now, c);
      var passes := && user in s.profiles && |name| >= 2 && !HasName(s.profiles[user].orgList, name)
                    && |Owned(s.orgs, user)| < 9999999;
      && reply.outcome == (
           if user !in s.profiles then Refused(1404)
           else if |name| < 2 then Refused(14000)
           else if HasName(s.profiles[user].orgList, name) then Refused(14090)
           else if !passes then Refused(140010)
           else DoneIf(c.project && c.orgWrite && c.profileWrite))
      && (if passes && c.project && c.orgWrite
          then OneCell(s, reply.stores, user, user + "-org-" + suffix, Member(true, Joined)) else reply.stores == s)
      && (reply.outcome != Done ==> reply.stores.profiles == s.profiles)
  {
    assert Used(s, user) == |Owned(s.orgs, user)|;
    var creator := OrgMember(user, true, user, now, Joined);
    assert [] + [creator] == [creator];
    assert forall u :: StandingIn([creator], u) == if u == user then BOSS else Outsider;
  }
}
