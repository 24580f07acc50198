/** The organisation object of organization.go: a record whose member slice is scanned and changed in place. */
module Organization {
  import opened Membership
  import opened Wrappers

  /** An organisation as it is stored. */
  datatype OrgRecord = OrgRecord(
    id: string,
    name: string,
    createBy: string,
    createTime: string,
    members: Members,
    roleBinding: bool)

  class Orgnazition {
    var id: string
    var name: string
    var createBy: string
    var createTime: string
    var roleBinding: bool
    // The MemberList slice: its backing array and the length in its header.
    var backing: array<OrgMember>
    var length: nat

    ghost predicate Valid()
      reads this
    {
      length <= backing.Length
    }

    function MemberList(): Members
      reads this, backing
      requires Valid()
    {
      backing[..length]
    }

    function Record(): OrgRecord
      reads this, backing
      requires Valid()
    {
      OrgRecord(id, name, createBy, createTime, MemberList(), roleBinding)
    }

    /** A fresh object read from its stored record; the decoder may leave room behind the members. */
    constructor (r: OrgRecord, room: Members := [])
      ensures Valid() && fresh(backing)
      ensures Record() == r
    {
      id, name, createBy, createTime, roleBinding := r.id, r.name, r.createBy, r.createTime, r.roleBinding;
      var slots := r.members + room;
      var a := new OrgMember[|slots|](i requires 0 <= i < |slots| => slots[i]);
      backing, length := a, |r.members|;
    }

    method IsAdmin(username: string) returns (found: bool)
      requires Valid()
      ensures found <==> HasAdmin(MemberList(), username)
    {
      for i := 0 to length
        invariant forall j :: 0 <= j < i ==> !(backing[j].memberName == username && backing[j].isAdmin)
      {
        if backing[i].memberName == username && backing[i].isAdmin {
          assert MemberList()[i] == backing[i];
          return true;
        }
      }
      return false;
    }

    method LastAdmin(username: string) returns (last: bool)
      requires Valid()
      ensures last <==> IsLastAdmin(MemberList(), username)
    {
      var adminCnt, isAdmin := 0, false;
      ghost var ms := MemberList();
      for i := 0 to length
        invariant adminCnt == JoinedAdminCount(ms[..i])
        invariant isAdmin <==> HasAdmin(ms[..i], username)
      {
        assert ms[..i + 1][..i] == ms[..i] && ms[..i + 1][i] == backing[i];
        assert isAdmin ==> HasAdmin(ms[..i + 1], username) by {
          if isAdmin {
            var j :| 0 <= j < i && ms[..i][j].memberName == username && ms[..i][j].isAdmin;
            assert ms[..i + 1][j] == ms[..i][j];
          }
        }
        if backing[i].memberName == username && backing[i].isAdmin {
          isAdmin := true;
        }
        if backing[i].isAdmin && backing[i].status == Joined {
          adminCnt := adminCnt + 1;
        }
      }
      assert ms[..length] == ms;
      return isAdmin && adminCnt == 1;
    }

    method IsMemberExist(memberName: string) returns (found: bool)
      requires Valid()
      ensures found <==> Listed(MemberList(), memberName)
    {
      for i := 0 to length
        invariant forall j :: 0 <= j < i ==> backing[j].memberName != memberName
      {
        if backing[i].memberName == memberName {
          assert MemberList()[i] == backing[i];
          return true;
        }
      }
      return false;
    }

    method JoinedMemberCnt() returns (cnt: nat)
      requires Valid()
      ensures cnt == JoinedCount(MemberList())
    {
      cnt := 0;
      ghost var ms := MemberList();
      for i := 0 to length
        invariant cnt == JoinedCount(ms[..i])
      {
        assert ms[..i + 1][..i] == ms[..i] && ms[..i + 1][i] == backing[i];
        if backing[i].status == Joined {
          cnt := cnt + 1;
        }
      }
      assert ms[..length] == ms;
    }

    /** The status of the first entry of that name. */
    method MemberStatus(memberName: string) returns (status: MemberStatus)
      requires Valid()
      ensures !Listed(MemberList(), memberName) ==> status == NoStatus
      ensures Listed(MemberList(), memberName) ==> status == StatusOf(MemberList(), memberName)
    {
      for i := 0 to length
        invariant forall j :: 0 <= j < i ==> backing[j].memberName != memberName
      {
        if backing[i].memberName == memberName {
          FirstStatus(MemberList(), memberName, i);
          return backing[i].status;
        }
      }
      return NoStatus;
    }

    /** Deletes while ranging over the header read at the start: the array shifts under the loop and
        its last slot goes stale. `ok` is false when a slice expression goes out of range. */
    method RemoveMember(member: string) returns (ok: bool)
      requires Valid()
      modifies this`length, backing
      ensures Valid()
      ensures ok <==> !SweepOutOfRange(old(MemberList()), member)
      ensures ok ==> MemberList() == Swept(old(MemberList()), member)
    {
      var n := length;
      ghost var slots := MemberList();
      SweepMeaning(slots, member);
      var idx := 0;
      while idx < n
        invariant idx <= n == |slots| <= backing.Length && length <= n
        invariant backing[..n] == slots
        invariant SweepFrom(slots, length, idx, member) == SweepFrom(old(MemberList()), n, 0, member)
      {
        assert slots[idx] == backing[idx];
        if backing[idx].memberName == member {
          if idx + 1 > length {
            return false;
          }
          slots := ShiftDown(slots, idx, length);
          DeleteAt(idx, n);
        }
        idx := idx + 1;
      }
      assert backing[..length] == slots[..length];
      return true;
    }

    /** append(s[:idx], s[idx+1:]...) on the shared array: slots from idx shift down by one and the
        last slot in use keeps its old value. */
    method DeleteAt(idx: nat, n: nat)
      requires idx < length <= n <= backing.Length
      modifies this`length, backing
      ensures length == old(length) - 1
      ensures backing[..n] == ShiftDown(old(backing[..n]), idx, old(length))
    {
      forall i | idx <= i < length - 1 {
        backing[i] := backing[i + 1];
      }
      length := length - 1;
    }

    /** Every entry of that name becomes joined. */
    method MemberJoined(member: string, now: string)
      requires Valid()
      modifies backing
      ensures MemberList() == WithJoined(old(MemberList()), member, now)
    {
      ghost var orig := MemberList();
      for i := 0 to length
        invariant forall j :: i <= j < length ==> backing[j] == orig[j]
        invariant forall j :: 0 <= j < i ==> backing[j] == WithJoined(orig, member, now)[j]
      {
        if backing[i].memberName == member {
          backing[i] := backing[i].(status := Joined, joinedAt := now);
        }
      }
    }

    /** The loop of OrgPrivilege up to its first hit; false when there is none. */
    method Privilege(member: string, isAdmin: bool, granter: string) returns (found: bool)
      requires Valid()
      modifies backing
      ensures found <==> Listed(old(MemberList()), member)
      ensures found ==> MemberList() == WithPrivilege(old(MemberList()), member, isAdmin, granter)
      ensures !found ==> MemberList() == old(MemberList())
    {
      for i := 0 to length
        invariant MemberList() == old(MemberList())
        invariant forall j :: 0 <= j < i ==> backing[j].memberName != member
      {
        if backing[i].memberName == member {
          assert MemberList()[i] == backing[i];
          WithPrivilegeAt(MemberList(), member, isAdmin, granter, i);
          backing[i] := backing[i].(isAdmin := isAdmin, privilegedBy := granter);
          return true;
        }
      }
      return false;
    }

    /** append(org.MemberList, m): into the array while it has room, into a new one else. */
    method AppendMember(m: OrgMember)
      requires Valid()
      modifies this`backing, this`length, backing
      ensures Valid() && (backing == old(backing) || fresh(backing))
      ensures MemberList() == old(MemberList()) + [m]
    {
      if length < backing.Length {
        backing[length] := m;
        length := length + 1;
        return;
      }
      var all := backing[..length] + [m];
      backing := new OrgMember[|all|](i requires 0 <= i < |all| => all[i]);
      length := |all|;
    }
  }

  function StatusOf(ms: Members, memberName: string): MemberStatus {
    if ms == [] then NoStatus
    else if ms[0].memberName == memberName then ms[0].status
    else StatusOf(ms[1..], memberName)
  }

  lemma {:induction false} FirstStatus(ms: Members, memberName: string, i: nat)
    requires i < |ms| && ms[i].memberName == memberName
    requires forall j :: 0 <= j < i ==> ms[j].memberName != memberName
    ensures StatusOf(ms, memberName) == ms[i].status
  {
    if i > 0 {
      FirstStatus(ms[1..], memberName, i - 1);
    }
  }
}
