/** Members of an organisation and what the scans of organization.go compute over a member list. */
module Membership {

  import opened Wrappers

  datatype MemberStatus = Invited | Joined | NoStatus | OtherStatus(text: string)

  datatype OrgMember = OrgMember(
    memberName: string,
    isAdmin: bool,
    privilegedBy: string,
    joinedAt: string,
    status: MemberStatus)

  type Members = seq<OrgMember>

  // ----- who is in a list -----

  predicate Listed(ms: Members, user: string) {
    exists i :: 0 <= i < |ms| && ms[i].memberName == user
  }

  predicate HasAdmin(ms: Members, user: string) {
    exists i :: 0 <= i < |ms| && ms[i].memberName == user && ms[i].isAdmin
  }

  predicate HasJoined(ms: Members, user: string) {
    exists i :: 0 <= i < |ms| && ms[i].memberName == user && ms[i].status == Joined
  }

  predicate JoinedAdmin(m: OrgMember) {
    m.isAdmin && m.status == Joined
  }

  predicate SomeJoinedAdmin(ms: Members) {
    exists i :: 0 <= i < |ms| && JoinedAdmin(ms[i])
  }

  predicate DistinctNames(ms: Members) {
    forall i, j :: 0 <= i < j < |ms| ==> ms[i].memberName != ms[j].memberName
  }

  // ----- counters -----

  function JoinedCount(ms: Members): nat {
    if ms == [] then 0
    else JoinedCount(ms[..|ms| - 1]) + if ms[|ms| - 1].status == Joined then 1 else 0
  }

  function JoinedAdminCount(ms: Members): nat {
    if ms == [] then 0
    else JoinedAdminCount(ms[..|ms| - 1]) + if JoinedAdmin(ms[|ms| - 1]) then 1 else 0
  }

  /** IsLastAdmin: the caller may be an admin of any status, the count is of joined admins only. */
  predicate IsLastAdmin(ms: Members, user: string) {
    HasAdmin(ms, user) && JoinedAdminCount(ms) == 1
  }

  lemma {:induction false} JoinedAdminCountConcat(a: Members, b: Members)
    ensures JoinedAdminCount(a + b) == JoinedAdminCount(a) + JoinedAdminCount(b)
  {
    if b == [] {
      assert a + b == a;
    } else {
      assert (a + b)[..|a + b| - 1] == a + b[..|b| - 1];
      JoinedAdminCountConcat(a, b[..|b| - 1]);
    }
  }

  lemma {:induction false} JoinedAdminCountPositive(ms: Members)
    ensures JoinedAdminCount(ms) > 0 <==> SomeJoinedAdmin(ms)
  {
    if ms != [] {
      var front := ms[..|ms| - 1];
      JoinedAdminCountPositive(front);
      if SomeJoinedAdmin(front) {
        var i :| 0 <= i < |front| && JoinedAdmin(front[i]);
        assert JoinedAdmin(ms[i]);
      }
      if SomeJoinedAdmin(ms) {
        var i :| 0 <= i < |ms| && JoinedAdmin(ms[i]);
        assert i < |front| ==> JoinedAdmin(front[i]);
      }
    }
  }

  /** Beside a joined admin who is not the last one there stands another. */
  lemma {:induction false} AnotherJoinedAdmin(ms: Members, i: int) returns (j: int)
    requires 0 <= i < |ms| && JoinedAdmin(ms[i]) && !IsLastAdmin(ms, ms[i].memberName)
    ensures 0 <= j < |ms| && j != i && JoinedAdmin(ms[j])
  {
    var before, after := ms[..i], ms[i + 1..];
    assert ms == before + [ms[i]] + after;
    JoinedAdminCountConcat(before + [ms[i]], after);
    JoinedAdminCountConcat(before, [ms[i]]);
    assert JoinedAdminCount([ms[i]]) == 1;
    JoinedAdminCountPositive(before);
    JoinedAdminCountPositive(after);
    if SomeJoinedAdmin(before) {
      j :| 0 <= j < |before| && JoinedAdmin(before[j]);
    } else {
      var k :| 0 <= k < |after| && JoinedAdmin(after[k]);
      j := i + 1 + k;
    }
  }

  /** When at most one member is joined, a joined member is the only one. */
  lemma {:induction false} OnlyJoined(ms: Members, i: int, j: int)
    requires JoinedCount(ms) <= 1
    requires 0 <= i < |ms| && 0 <= j < |ms| && ms[i].status == Joined && ms[j].status == Joined
    ensures i == j
  {
    var last := |ms| - 1;
    if i < last && j < last {
      OnlyJoined(ms[..last], i, j);
    } else if i != j {
      JoinedCountPositive(ms[..last], if i < last then i else j);
    }
  }

  lemma {:induction false} JoinedCountPositive(ms: Members, i: int)
    requires 0 <= i < |ms| && ms[i].status == Joined
    ensures JoinedCount(ms) > 0
  {
    if i < |ms| - 1 {
      JoinedCountPositive(ms[..|ms| - 1], i);
    }
  }

  /** The positions of the joined members, and of the joined admins. */
  function JoinedAt(ms: Members): set<int> {
    set i | 0 <= i < |ms| && ms[i].status == Joined
  }

  function JoinedAdminsAt(ms: Members): set<int> {
    set i | 0 <= i < |ms| && ms[i].isAdmin && ms[i].status == Joined
  }

  lemma {:induction false} PositionsGrow(ms: Members)
    requires ms != []
    ensures var n := |ms| - 1;
      && JoinedAt(ms) == JoinedAt(ms[..n]) + (if ms[n].status == Joined then {n} else {})
      && JoinedAdminsAt(ms) == JoinedAdminsAt(ms[..n]) + (if JoinedAdmin(ms[n]) then {n} else {})
      && n !in JoinedAt(ms[..n]) && n !in JoinedAdminsAt(ms[..n])
  {
    var n := |ms| - 1;
    assert forall i :: 0 <= i < n ==> ms[..n][i] == ms[i];
  }

  /** The two counters count positions. */
  lemma {:induction false} CountsMeaning(ms: Members)
    ensures JoinedCount(ms) == |JoinedAt(ms)| && JoinedAdminCount(ms) == |JoinedAdminsAt(ms)|
  {
    if ms == [] {
      assert JoinedAt(ms) == {} && JoinedAdminsAt(ms) == {};
    } else {
      CountsMeaning(ms[..|ms| - 1]);
      PositionsGrow(ms);
    }
  }

  // ----- in-place removal -----

  /** The list a removal is meant to leave. */
  function Without(ms: Members, user: string): Members {
    if ms == [] then []
    else (if ms[0].memberName == user then [] else [ms[0]]) + Without(ms[1..], user)
  }

  /** The list the shifting loop does leave when it does not go out of range:
      after a hit the element that slides into the hole is not looked at. */
  function Swept(ms: Members, user: string): Members {
    if ms == [] then []
    else if ms[0].memberName != user then [ms[0]] + Swept(ms[1..], user)
    else if |ms| == 1 then []
    else [ms[1]] + Swept(ms[2..], user)
  }

  /** The shifting loop slices out of range exactly here: the stale last slot still holds the name
      after an earlier hit. */
  predicate SweepOutOfRange(ms: Members, user: string) {
    && |ms| > 0 && ms[|ms| - 1].memberName == user
    && Listed(ms[..|ms| - 1], user)
  }

  predicate AdjacentHits(ms: Members, user: string) {
    exists i :: 0 < i < |ms| && ms[i - 1].memberName == user && ms[i].memberName == user
  }

  /** The array after append(s[:idx], s[idx+1:]...) on a slice of `len` slots. */
  function ShiftDown(slots: Members, idx: nat, len: nat): Members
    requires idx < len <= |slots|
  {
    slots[..idx] + slots[idx + 1..len] + slots[len - 1..]
  }

  /** The rest of the removal loop from position `idx`, on the array `slots` under the original
      header and a slice of `len` slots: what it leaves, or None when it slices out of range. */
  function SweepFrom(slots: Members, len: nat, idx: nat, user: string): Option<Members>
    requires len <= |slots| && idx <= |slots|
    decreases |slots| - idx
  {
    if idx == |slots| then Some(slots[..len])
    else if slots[idx].memberName != user then SweepFrom(slots, len, idx + 1, user)
    else if idx + 1 > len then None
    else SweepFrom(ShiftDown(slots, idx, len), len - 1, idx + 1, user)
  }

  /** Behind the end of the slice every slot holds the old last element: the loop either stops on it
      or runs out. */
  lemma {:induction false} SweepStaleTail(slots: Members, len: nat, idx: nat, user: string)
    requires len <= idx <= |slots|
    requires forall j :: len <= j < |slots| ==> slots[j] == slots[|slots| - 1]
    ensures SweepFrom(slots, len, idx, user)
         == if idx < |slots| && slots[|slots| - 1].memberName == user then None else Some(slots[..len])
    decreases |slots| - idx
  {
    if idx < |slots| && slots[idx].memberName != user {
      SweepStaleTail(slots, len, idx + 1, user);
    }
  }

  /** Once an element is gone, a last element of that name takes the loop out of range. */
  lemma {:induction false} SweepAfterHit(slots: Members, len: nat, idx: nat, user: string)
    requires idx <= len < |slots|
    requires forall j :: len - 1 <= j < |slots| && idx <= j ==> slots[j] == slots[|slots| - 1]
    ensures SweepFrom(slots, len, idx, user)
         == if slots[|slots| - 1].memberName == user then None
            else Some(slots[..idx] + Swept(slots[idx..len], user))
    decreases |slots| - idx
  {
    if idx == len {
      SweepStaleTail(slots, len, idx, user);
      assert slots[..idx] + [] == slots[..len];
    } else if slots[idx].memberName != user {
      SweepAfterHit(slots, len, idx + 1, user);
      SweptMiss(slots, len, idx, user);
    } else if idx + 1 == len {
      assert ShiftDown(slots, idx, len) == slots;
      SweepStaleTail(slots, len - 1, idx + 1, user);
    } else {
      SweepAfterHit(ShiftDown(slots, idx, len), len - 1, idx + 1, user);
      SweptHit(slots, len, idx, user);
    }
  }

  lemma {:induction false} SweptMiss(slots: Members, len: nat, idx: nat, user: string)
    requires idx < len <= |slots| && slots[idx].memberName != user
    ensures slots[..idx] + Swept(slots[idx..len], user) == slots[..idx + 1] + Swept(slots[idx + 1..len], user)
  {
    assert slots[idx..len][1..] == slots[idx + 1..len];
    assert slots[..idx + 1] == slots[..idx] + [slots[idx]];
  }

  lemma {:induction false} SweptHit(slots: Members, len: nat, idx: nat, user: string)
    requires idx + 1 < len <= |slots| && slots[idx].memberName == user
    ensures var after := ShiftDown(slots, idx, len);
      slots[..idx] + Swept(slots[idx..len], user) == after[..idx + 1] + Swept(after[idx + 1..len - 1], user)
  {
    var used, after := slots[idx..len], ShiftDown(slots, idx, len);
    assert used[2..] == slots[idx + 2..len] == after[idx + 1..len - 1];
    assert after[..idx + 1] == slots[..idx] + [used[1]];
  }

  lemma {:induction false} SweepBeforeHit(slots: Members, idx: nat, user: string)
    requires idx <= |slots|
    ensures SweepFrom(slots, |slots|, idx, user)
         == if SweepOutOfRange(slots[idx..], user) then None
            else Some(slots[..idx] + Swept(slots[idx..], user))
    decreases |slots| - idx
  {
    var n, rest := |slots|, slots[idx..];
    if idx == n {
      assert slots[..idx] + [] == slots[..n];
    } else if slots[idx].memberName != user {
      SweepBeforeHit(slots, idx + 1, user);
      SweptMiss(slots, n, idx, user);
      assert rest == slots[idx..n] && rest[1..] == slots[idx + 1..] == slots[idx + 1..n];
      OutOfRangeTail(rest, user);
    } else if idx + 1 == n {
      assert ShiftDown(slots, idx, n) == slots;
    } else {
      SweepFirstHit(slots, idx, user);
    }
  }

  lemma {:induction false} SweepFirstHit(slots: Members, idx: nat, user: string)
    requires idx + 1 < |slots| && slots[idx].memberName == user
    ensures SweepFrom(slots, |slots|, idx, user)
         == if SweepOutOfRange(slots[idx..], user) then None
            else Some(slots[..idx] + Swept(slots[idx..], user))
  {
    var n, rest := |slots|, slots[idx..];
    SweepAfterHit(ShiftDown(slots, idx, n), n - 1, idx + 1, user);
    SweptHit(slots, n, idx, user);
    assert rest == slots[idx..n];
    assert rest[..|rest| - 1][0].memberName == user;
  }

  lemma {:induction false} OutOfRangeTail(ms: Members, user: string)
    requires |ms| > 0 && ms[0].memberName != user
    ensures SweepOutOfRange(ms, user) <==> SweepOutOfRange(ms[1..], user)
  {
    var front := ms[..|ms| - 1];
    if |ms| > 1 {
      var tail := ms[1..][..|ms| - 2];
      assert front == [ms[0]] + tail;
      assert forall i :: 0 <= i < |tail| ==> front[i + 1] == tail[i];
    }
  }

  /** The whole loop: out of range, or the swept list. */
  lemma {:induction false} SweepMeaning(ms: Members, user: string)
    ensures SweepFrom(ms, |ms|, 0, user)
         == if SweepOutOfRange(ms, user) then None else Some(Swept(ms, user))
  {
    SweepBeforeHit(ms, 0, user);
    assert ms[0..] == ms;
    assert ms[..0] + Swept(ms, user) == Swept(ms, user);
  }

  lemma {:induction false} WithoutLength(ms: Members, user: string)
    ensures |Without(ms, user)| <= |ms|
    ensures forall k :: 0 <= k < |Without(ms, user)| ==> Without(ms, user)[k].memberName != user
  {
    if ms != [] { WithoutLength(ms[1..], user); }
  }

  lemma {:induction false} SweptKeepsOthers(ms: Members, user: string)
    ensures Without(Swept(ms, user), user) == Without(ms, user)
    decreases |ms|
  {
    if ms == [] {
    } else if ms[0].memberName != user {
      SweptKeepsOthers(ms[1..], user);
      assert Swept(ms, user)[1..] == Swept(ms[1..], user);
    } else if |ms| > 1 {
      SweptKeepsOthers(ms[2..], user);
      assert Swept(ms, user)[1..] == Swept(ms[2..], user);
      assert ms[1..][1..] == ms[2..];
    }
  }

  /** Exactly when the loop leaves what it is meant to leave: no two neighbouring hits. */
  lemma {:induction false} SweptIsWithoutIff(ms: Members, user: string)
    ensures Swept(ms, user) == Without(ms, user) <==> !AdjacentHits(ms, user)
    decreases |ms|
  {
    WithoutLength(ms, user);
    if ms == [] {
    } else if ms[0].memberName != user {
      var rest := ms[1..];
      SweptIsWithoutIff(rest, user);
      assert Swept(ms, user)[1..] == Swept(rest, user);
      assert Without(ms, user)[1..] == Without(rest, user);
      ShiftHits(ms, user);
    } else if |ms| > 1 {
      var rest := ms[2..];
      SweptIsWithoutIff(rest, user);
      assert ms[1..][1..] == rest;
      if ms[1].memberName == user {
        assert Swept(ms, user)[0].memberName == user;
        assert ms[1 - 1].memberName == user;
      } else {
        assert Swept(ms, user)[1..] == Swept(rest, user);
        assert Without(ms, user) == [ms[1]] + Without(rest, user);
        assert Without(ms, user)[1..] == Without(rest, user);
        ShiftHits(ms, user);
        ShiftHits(ms[1..], user);
      }
    }
  }

  lemma {:induction false} ShiftHits(ms: Members, user: string)
    requires |ms| > 0
    ensures AdjacentHits(ms, user)
       <==> AdjacentHits(ms[1..], user) || (|ms| > 1 && ms[0].memberName == user && ms[1].memberName == user)
  {
    var rest := ms[1..];
    if AdjacentHits(ms, user) {
      var i :| 0 < i < |ms| && ms[i - 1].memberName == user && ms[i].memberName == user;
      if i > 1 { assert rest[i - 2].memberName == user && rest[i - 1].memberName == user; }
    }
    if AdjacentHits(rest, user) {
      var i :| 0 < i < |rest| && rest[i - 1].memberName == user && rest[i].memberName == user;
      assert ms[i + 1 - 1].memberName == user && ms[i + 1].memberName == user;
    }
  }

  /** Exactly when the removal loop does its work: it stays in range and leaves the other members. */
  lemma {:induction false} RemovalExactIff(ms: Members, user: string)
    ensures SweepFrom(ms, |ms|, 0, user) == Some(Without(ms, user))
       <==> !AdjacentHits(ms, user) && !SweepOutOfRange(ms, user)
  {
    SweepMeaning(ms, user);
    SweptIsWithoutIff(ms, user);
  }

  /** With distinct names the loop is safe and exact. */
  lemma {:induction false} DistinctSweep(ms: Members, user: string)
    requires DistinctNames(ms)
    ensures !SweepOutOfRange(ms, user)
    ensures Swept(ms, user) == Without(ms, user)
  {
    SweptIsWithoutIff(ms, user);
  }

  /** What removal by name means, element by element. */
  lemma {:induction false} WithoutMembers(ms: Members, user: string, m: OrgMember)
    ensures m in Without(ms, user) <==> m in ms && m.memberName != user
  {
    if ms != [] {
      WithoutMembers(ms[1..], user, m);
      assert ms == [ms[0]] + ms[1..];
    }
  }

  lemma {:induction false} WithoutDistinct(ms: Members, user: string)
    requires DistinctNames(ms)
    ensures DistinctNames(Without(ms, user))
  {
    if ms != [] {
      var rest := Without(ms[1..], user);
      WithoutDistinct(ms[1..], user);
      forall k | 0 <= k < |rest| ensures rest[k].memberName != ms[0].memberName {
        WithoutMembers(ms[1..], user, rest[k]);
        var i :| 0 <= i < |ms[1..]| && ms[1..][i] == rest[k];
        assert ms[i + 1] == rest[k];
      }
    }
  }

  // ----- accepting and privileging -----

  /** MemberJoined: every entry of that name becomes joined. */
  function WithJoined(ms: Members, user: string, now: string): (r: Members)
    ensures |r| == |ms|
    ensures forall i :: 0 <= i < |ms| ==>
      r[i] == if ms[i].memberName == user then ms[i].(status := Joined, joinedAt := now) else ms[i]
  {
    seq(|ms|, i requires 0 <= i < |ms| =>
      if ms[i].memberName == user then ms[i].(status := Joined, joinedAt := now) else ms[i])
  }

  /** The loop of OrgPrivilege: only the first entry of that name changes. */
  function WithPrivilege(ms: Members, user: string, isAdmin: bool, granter: string): Members {
    if ms == [] then []
    else if ms[0].memberName == user then [ms[0].(isAdmin := isAdmin, privilegedBy := granter)] + ms[1..]
    else [ms[0]] + WithPrivilege(ms[1..], user, isAdmin, granter)
  }

  lemma {:induction false} WithPrivilegeAt(ms: Members, user: string, isAdmin: bool, granter: string, i: nat)
    requires i < |ms| && ms[i].memberName == user
    requires forall j :: 0 <= j < i ==> ms[j].memberName != user
    ensures WithPrivilege(ms, user, isAdmin, granter) == ms[i := ms[i].(isAdmin := isAdmin, privilegedBy := granter)]
  {
    if i > 0 {
      WithPrivilegeAt(ms[1..], user, isAdmin, granter, i - 1);
    }
  }

  // ----- role bindings -----

  /** The names UpdateRoleBinding collects for the admin role, or for the edit role. */
  function RoleNames(ms: Members, admin: bool): seq<string> {
    if ms == [] then []
    else
      var front, last := RoleNames(ms[..|ms| - 1], admin), ms[|ms| - 1];
      if last.isAdmin == admin then front + [last.memberName] else front
  }
}
