/** Listing a user's messages, the read marks that follow it, and the statistics of unread messages. */
module Inbox {
  import opened Int64
  import Paging

  const UNREAD := 0
  const READ := 1
  const EITHER := 2

  const ACTION_SET_READ := "read"
  const ACTION_SET_UNREAD := "unread"

  datatype Message = Message(
    id: int, kind: string, level: int, status: int, time: int, receiver: string, sender: string)

  type Table = seq<Message>

  predicate DistinctIds(ms: seq<Message>) {
    forall i, j :: 0 <= i < j < |ms| ==> ms[i].id != ms[j].id
  }

  // ----- the query -----

  /** The where clause; a blank kind or sender, status 2 and a negative level do not filter. */
  datatype Filter = Filter(receiver: string, kind: string, level: int, status: int, sender: string)

  predicate Selects(f: Filter, m: Message) {
    && m.receiver == f.receiver
    && (f.kind == "" || m.kind == f.kind)
    && (f.status == EITHER || m.status == f.status)
    && (f.sender == "" || m.sender == f.sender)
    && (f.level < 0 || m.level == f.level)
  }

  predicate LatestFirst(ms: seq<Message>) {
    forall i, j :: 0 <= i < j < |ms| ==> ms[i].time >= ms[j].time
  }

  /** The selected rows, latest first; rows of the same time may come in any order. */
  ghost predicate IsListing(rows: Table, f: Filter, listing: seq<Message>) {
    && DistinctIds(listing)
    && (forall m :: m in listing <==> m in rows && Selects(f, m))
    && LatestFirst(listing)
  }

  /** Each part of the where clause by itself: with all of them blank every row of the receiver is selected, and
      each one that is given keeps those rows that have it. */
  lemma {:induction false} SelectsByParts(f: Filter, m: Message)
    ensures f.level < 0 ==> (Selects(Filter(f.receiver, "", f.level, 2, ""), m) <==> m.receiver == f.receiver)
    ensures f.kind != "" ==> (Selects(f, m) <==> Selects(f.(kind := ""), m) && m.kind == f.kind)
    ensures f.sender != "" ==> (Selects(f, m) <==> Selects(f.(sender := ""), m) && m.sender == f.sender)
    ensures f.status != 2 ==> (Selects(f, m) <==> Selects(f.(status := 2), m) && m.status == f.status)
    ensures f.level >= 0 ==> (Selects(f, m) <==> Selects(f.(level := -1), m) && m.level == f.level)
  {
  }

  /** The positions of the rows a filter selects. */
  function SelectedAt(rows: Table, f: Filter): set<int> {
    set k | 0 <= k < |rows| && Selects(f, rows[k])
  }

  function PositionsOf(rows: Table, ms: seq<Message>): set<int> {
    set k | 0 <= k < |rows| && rows[k] in ms
  }

  lemma {:induction false} OnePosition(rows: Table, ms: seq<Message>, at: nat)
    requires DistinctIds(rows) && DistinctIds(ms) && ms != []
    requires at < |rows| && rows[at] == ms[|ms| - 1]
    ensures var front := PositionsOf(rows, ms[..|ms| - 1]);
      at !in front && PositionsOf(rows, ms) == front + {at}
  {
    var n := |ms| - 1;
    var front := ms[..n];
    assert forall j :: 0 <= j < n ==> front[j] == ms[j];
    forall k | 0 <= k < |rows| ensures rows[k] in ms <==> rows[k] in front || k == at {
      if rows[k] == ms[n] {
        assert rows[k].id == rows[at].id;
      }
    }
    assert ms[n] !in front;
  }

  lemma {:induction false} PositionsCount(rows: Table, ms: seq<Message>)
    requires DistinctIds(rows) && DistinctIds(ms) && forall m :: m in ms ==> m in rows
    ensures |PositionsOf(rows, ms)| == |ms|
  {
    if ms == [] {
      assert PositionsOf(rows, ms) == {};
    } else {
      var n := |ms| - 1;
      PositionsCount(rows, ms[..n]);
      assert ms[n] in rows;
      var at :| 0 <= at < |rows| && rows[at] == ms[n];
      OnePosition(rows, ms, at);
    }
  }

  /** A listing holds each selected row once. */
  lemma {:induction false} ListingCounts(rows: Table, f: Filter, listing: seq<Message>)
    requires DistinctIds(rows) && IsListing(rows, f, listing)
    ensures |listing| == |SelectedAt(rows, f)|
  {
    PositionsCount(rows, listing);
    assert PositionsOf(rows, listing) == SelectedAt(rows, f);
  }

  // ----- marking -----

  /** The transaction of modifyUserMessage when it goes through: a row of another receiver stays. */
  function SetStatus(rows: Table, user: string, id: int, status: int): (after: Table)
    ensures |after| == |rows|
    ensures forall k :: 0 <= k < |rows| ==>
      after[k] == (if rows[k].id == id && rows[k].receiver == user then rows[k].(status := status) else rows[k])
  {
    seq(|rows|, k requires 0 <= k < |rows| =>
      if rows[k].id == id && rows[k].receiver == user then rows[k].(status := status) else rows[k])
  }

  /** The marks set for a page; `ok` says which transactions go through. */
  function MarkAll(rows: Table, user: string, page: seq<Message>, ok: seq<bool>): Table
    requires |ok| == |page|
    decreases page
  {
    if page == [] then rows
    else MarkAll(if page[0].status == UNREAD && ok[0] then SetStatus(rows, user, page[0].id, READ) else rows,
                 user, page[1..], ok[1..])
  }

  datatype ModifyResult = ModifyResult(handled: bool, failed: bool)

  /** The rows of the query within the validated window. */
  method TakePage(listing: seq<Message>, offset: int, limit: int) returns (page: seq<Message>)
    requires |listing| > 0 && IsInt64(offset) && IsInt64(limit)
    requires |listing| + Paging.Max(limit, 1) <= MAX_INT64
    ensures |page| == Paging.WindowLength(|listing|, offset, Paging.Max(limit, 1))
    ensures var start := Paging.WindowStart(|listing|, offset, Paging.Max(limit, 1));
      0 <= start <= start + |page| <= |listing| && page == listing[start..start + |page|]
  {
    var o, l := Paging.ValidateOffsetAndLimit(|listing|, offset, limit);
    page := listing[o..o + l];
  }

  class MessageTable {
    var rows: Table

    constructor (rows: Table)
      ensures this.rows == rows
    {
      this.rows := rows;
    }

    ghost predicate Valid()
      reads this
    {
      DistinctIds(rows)
    }

    /** `ok` is the answer of the database to the calls of the transaction. */
    method ModifyUserMessage(user: string, id: int, action: string, ok: bool) returns (r: ModifyResult)
      requires Valid()
      modifies this
      ensures Valid()
      ensures r.handled <==> action == "read" || action == "unread"
      ensures !r.handled ==> !r.failed
      ensures rows == if !r.handled || !ok then old(rows)
                      else SetStatus(old(rows), user, id, if action == "read" then 1 else 0)
      ensures r.handled ==>
        (r.failed <==>
          !ok || !exists k ::
            0 <= k < |old(rows)| && old(rows)[k].id == id && old(rows)[k].receiver == user)
    {
      var status := EITHER;
      if action == ACTION_SET_READ {
        status := READ;
      } else if action == ACTION_SET_UNREAD {
        status := UNREAD;
      }
      if status == EITHER {
        return ModifyResult(false, false);
      }
      if !ok {
        return ModifyResult(true, true);
      }
      for k := 0 to |rows|
        invariant rows == old(rows)
        invariant forall j :: 0 <= j < k ==> rows[j].id != id
      {
        if rows[k].id == id {
          if rows[k].receiver != user {
            assert SetStatus(rows, user, id, status) == rows;
            return ModifyResult(true, true);
          }
          if rows[k].status == status {
            assert rows[k].(status := status) == rows[k];
            assert SetStatus(rows, user, id, status) == rows;
            return ModifyResult(true, false);
          }
          rows := rows[k := rows[k].(status := status)];
          assert rows == SetStatus(old(rows), user, id, status);
          return ModifyResult(true, false);
        }
      }
      assert SetStatus(rows, user, id, status) == rows;
      return ModifyResult(true, true);
    }

    /** The goroutine of getUserMessages: the page's unread rows are set to read one by one. */
    method MarkPage(user: string, page: seq<Message>, ok: seq<bool>)
      requires Valid() && |ok| == |page|
      modifies this
      ensures Valid()
      ensures rows == MarkAll(old(rows), user, page, ok)
    {
      assert page[0..] == page && ok[0..] == ok;
      for i := 0 to |page|
        invariant Valid()
        invariant MarkAll(rows, user, page[i..], ok[i..]) == MarkAll(old(rows), user, page, ok)
      {
        assert page[i..][1..] == page[i + 1..] && ok[i..][1..] == ok[i + 1..];
        var msg := page[i];
        if msg.status == UNREAD {
          var r := ModifyUserMessage(user, msg.id, ACTION_SET_READ, ok[i]);
        }
      }
    }

    /** getUserMessages with its goroutine run to the end; `listing` is the whole result of the query. */
    method GetUserMessages(f: Filter, listing: seq<Message>, offset: int, limit: int, ok: seq<bool>)
      returns (count: int, page: seq<Message>)
      requires Valid() && IsListing(rows, f, listing)
      requires IsInt64(offset) && IsInt64(limit) && |listing| + Paging.Max(limit, 1) <= MAX_INT64
      requires |ok| == |listing|
      modifies this
      ensures Valid() && count == |listing| == |SelectedAt(old(rows), f)|
      ensures var sz := Paging.Max(limit, 1);
        var start := Paging.WindowStart(count, offset, sz);
        && 0 <= start <= start + |page| <= count
        && page == listing[start..start + |page|]
        && (count > 0 ==> |page| == Paging.WindowLength(count, offset, sz))
      ensures PageOf(old(rows), f.receiver, page) && LatestFirst(page)
      ensures rows == MarkAll(old(rows), f.receiver, page, ok[..|page|])
    {
      count := |listing|;
      ListingCounts(rows, f, listing);
      if count == 0 {
        page := [];
        return;
      }
      page := TakePage(listing, offset, limit);
      ghost var start := Paging.WindowStart(count, offset, Paging.Max(limit, 1));
      ListingPage(rows, f, listing, start, start + |page|);
      MarkPage(f.receiver, page, ok[..|page|]);
    }
  }

  // ----- what listing changes -----

  /** An unread row of the page whose transaction goes through. */
  predicate Flipped(m: Message, page: seq<Message>, ok: seq<bool>)
    requires |ok| == |page|
  {
    m.status == 0 && exists i :: 0 <= i < |page| && page[i] == m && ok[i]
  }

  /** A page of a user's own rows. */
  predicate PageOf(rows: Table, user: string, page: seq<Message>) {
    DistinctIds(page) && forall i :: 0 <= i < |page| ==> page[i] in rows && page[i].receiver == user
  }

  lemma {:induction false} ListingPage(rows: Table, f: Filter, listing: seq<Message>, start: nat, end: nat)
    requires IsListing(rows, f, listing) && start <= end <= |listing|
    ensures PageOf(rows, f.receiver, listing[start..end]) && LatestFirst(listing[start..end])
  {
    var page := listing[start..end];
    forall i | 0 <= i < |page| ensures page[i] in rows && page[i].receiver == f.receiver {
      assert page[i] == listing[start + i] && page[i] in listing;
    }
  }

  lemma {:induction false} SameIdSameRow(rows: Table, a: Message, b: Message)
    requires DistinctIds(rows) && a in rows && b in rows && a.id == b.id
    ensures a == b
  {
  }

  lemma {:induction false} RestOfPage(rows: Table, user: string, page: seq<Message>, mark: bool)
    requires DistinctIds(rows) && PageOf(rows, user, page) && page != []
    ensures var after := if mark then SetStatus(rows, user, page[0].id, READ) else rows;
      DistinctIds(after) && PageOf(after, user, page[1..])
  {
    var after := if mark then SetStatus(rows, user, page[0].id, READ) else rows;
    var rest := page[1..];
    forall i | 0 <= i < |rest| ensures rest[i] in after && rest[i].receiver == user {
      assert rest[i] == page[i + 1] && rest[i].id != page[0].id;
      var k :| 0 <= k < |rows| && rows[k] == rest[i];
      assert after[k] == rest[i];
    }
  }

  /** Exactly the unread rows of the page whose transactions went through are read now, and no other row
      has changed. */
  lemma {:induction false} ListingFlips(rows: Table, user: string, page: seq<Message>, ok: seq<bool>)
    requires DistinctIds(rows) && PageOf(rows, user, page) && |ok| == |page|
    ensures var after := MarkAll(rows, user, page, ok);
      && |after| == |rows|
      && forall k :: 0 <= k < |rows| ==>
        after[k] == if Flipped(rows[k], page, ok) then rows[k].(status := 1) else rows[k]
    decreases page
  {
    if page != [] {
      var m, mark := page[0], page[0].status == UNREAD && ok[0];
      var mid := if mark then SetStatus(rows, user, m.id, READ) else rows;
      RestOfPage(rows, user, page, mark);
      ListingFlips(mid, user, page[1..], ok[1..]);
      forall k | 0 <= k < |rows|
        ensures Flipped(rows[k], page, ok) <==> (rows[k] == m && mark) || Flipped(mid[k], page[1..], ok[1..])
        ensures mid[k] == if rows[k] == m && mark then rows[k].(status := READ) else rows[k]
      {
        if rows[k].id == m.id { SameIdSameRow(rows, rows[k], m); }
        FlippedFirst(rows[k], page, ok);
      }
    }
  }

  lemma {:induction false} FlippedFirst(m: Message, page: seq<Message>, ok: seq<bool>)
    requires |ok| == |page| > 0
    ensures Flipped(m, page, ok) <==> (m == page[0] && m.status == UNREAD && ok[0]) || Flipped(m, page[1..], ok[1..])
  {
    if Flipped(m, page, ok) {
      var i :| 0 <= i < |page| && page[i] == m && ok[i];
      if i > 0 { assert page[1..][i - 1] == m && ok[1..][i - 1]; }
    }
    if Flipped(m, page[1..], ok[1..]) {
      var i :| 0 <= i < |page[1..]| && page[1..][i] == m && ok[1..][i];
      assert page[i + 1] == m && ok[i + 1];
    }
  }

  // ----- statistics -----

  datatype Category = ByType | ByLevel

  datatype GroupKey = TypeKey(kind: string) | LevelKey(level: int)

  function KeyOf(m: Message, c: Category): GroupKey {
    if c == ByType then TypeKey(m.kind) else LevelKey(m.level)
  }

  predicate UnreadOf(m: Message, user: string) {
    m.receiver == user && m.status == UNREAD
  }

  function CountOf(stats: map<GroupKey, int>, key: GroupKey): int {
    if key in stats then stats[key] else 0
  }

  /** select key, count(*) where receiver and unread, group by key. */
  function UnreadStats(rows: Table, user: string, c: Category): map<GroupKey, int> {
    if rows == [] then map[]
    else
      var front, last := UnreadStats(rows[..|rows| - 1], user, c), rows[|rows| - 1];
      if UnreadOf(last, user) then front[KeyOf(last, c) := CountOf(front, KeyOf(last, c)) + 1] else front
  }

  function UnreadCount(rows: Table, user: string): nat {
    if rows == [] then 0
    else UnreadCount(rows[..|rows| - 1], user) + if UnreadOf(rows[|rows| - 1], user) then 1 else 0
  }

  ghost function Total(stats: map<GroupKey, int>): int {
    if stats == map[] then 0
    else
      var key :| key in stats;
      stats[key] + Total(stats - {key})
  }

  lemma {:induction false} TotalSplit(stats: map<GroupKey, int>, key: GroupKey)
    requires key in stats
    ensures Total(stats) == stats[key] + Total(stats - {key})
    decreases |stats|
  {
    var first :| first in stats && Total(stats) == stats[first] + Total(stats - {first});
    if first != key {
      TotalSplit(stats - {first}, key);
      TotalSplit(stats - {key}, first);
      assert stats - {first} - {key} == stats - {key} - {first};
    }
  }

  lemma {:induction false} TotalBump(stats: map<GroupKey, int>, key: GroupKey)
    ensures Total(stats[key := CountOf(stats, key) + 1]) == Total(stats) + 1
  {
    var after := stats[key := CountOf(stats, key) + 1];
    TotalSplit(after, key);
    if key in stats {
      TotalSplit(stats, key);
      assert after - {key} == stats - {key};
    } else {
      assert after - {key} == stats;
    }
  }

  /** Each group's entry is the number of unread rows in it, and groups without any are absent. */
  lemma {:induction false} StatsCount(rows: Table, user: string, c: Category, key: GroupKey)
    ensures CountOf(UnreadStats(rows, user, c), key) == GroupCount(rows, user, c, key)
    ensures key in UnreadStats(rows, user, c) <==> GroupCount(rows, user, c, key) > 0
  {
    if rows != [] {
      StatsCount(rows[..|rows| - 1], user, c, key);
      GroupCountLast(rows, user, c, key);
    } else {
      assert Group(rows, user, c, key) == {};
    }
  }

  /** The positions of a user's unread rows of one type, and of one level. */
  function UnreadOfType(rows: Table, user: string, kind: string): set<int> {
    set k | 0 <= k < |rows| && rows[k].receiver == user && rows[k].status == 0 && rows[k].kind == kind
  }

  function UnreadOfLevel(rows: Table, user: string, level: int): set<int> {
    set k | 0 <= k < |rows| && rows[k].receiver == user && rows[k].status == 0 && rows[k].level == level
  }

  /** Statistics by type: an entry for each type that some unread row of the user has, counting those rows, and no
      other entry. */
  lemma {:induction false} StatsByType(rows: Table, user: string, kind: string, level: int)
    ensures var stats := UnreadStats(rows, user, ByType);
      && (TypeKey(kind) in stats <==> UnreadOfType(rows, user, kind) != {})
      && (TypeKey(kind) in stats ==> stats[TypeKey(kind)] == |UnreadOfType(rows, user, kind)|)
      && LevelKey(level) !in stats
  {
    StatsCount(rows, user, ByType, TypeKey(kind));
    StatsCount(rows, user, ByType, LevelKey(level));
    assert Group(rows, user, ByType, TypeKey(kind)) == UnreadOfType(rows, user, kind);
    assert Group(rows, user, ByType, LevelKey(level)) == {};
  }

  /** And by level. */
  lemma {:induction false} StatsByLevel(rows: Table, user: string, level: int, kind: string)
    ensures var stats := UnreadStats(rows, user, ByLevel);
      && (LevelKey(level) in stats <==> UnreadOfLevel(rows, user, level) != {})
      && (LevelKey(level) in stats ==> stats[LevelKey(level)] == |UnreadOfLevel(rows, user, level)|)
      && TypeKey(kind) !in stats
  {
    StatsCount(rows, user, ByLevel, LevelKey(level));
    StatsCount(rows, user, ByLevel, TypeKey(kind));
    assert Group(rows, user, ByLevel, LevelKey(level)) == UnreadOfLevel(rows, user, level);
    assert Group(rows, user, ByLevel, TypeKey(kind)) == {};
  }

  lemma {:induction false} GroupCountLast(rows: Table, user: string, c: Category, key: GroupKey)
    requires rows != []
    ensures var last := rows[|rows| - 1];
      GroupCount(rows, user, c, key)
      == GroupCount(rows[..|rows| - 1], user, c, key) + if UnreadOf(last, user) && KeyOf(last, c) == key then 1 else 0
  {
    var n := |rows| - 1;
    var whole, front := Group(rows, user, c, key), Group(rows[..n], user, c, key);
    var counts := UnreadOf(rows[n], user) && KeyOf(rows[n], c) == key;
    forall k ensures k in whole <==> k in front || (counts && k == n) {
      if 0 <= k < n { assert rows[..n][k] == rows[k]; }
    }
    assert n !in front;
    if counts {
      assert whole == front + {n};
    } else {
      assert whole == front;
    }
  }

  /** The positions of a group's unread rows. */
  function Group(rows: Table, user: string, c: Category, key: GroupKey): set<int> {
    set k | 0 <= k < |rows| && UnreadOf(rows[k], user) && KeyOf(rows[k], c) == key
  }

  function GroupCount(rows: Table, user: string, c: Category, key: GroupKey): nat {
    |Group(rows, user, c, key)|
  }

  /** Whatever the category, the totals are the number of unread messages. */
  lemma {:induction false} StatsTotal(rows: Table, user: string, c: Category)
    ensures Total(UnreadStats(rows, user, c)) == UnreadCount(rows, user)
  {
    if rows != [] {
      var front, last := rows[..|rows| - 1], rows[|rows| - 1];
      StatsTotal(front, user, c);
      TotalBump(UnreadStats(front, user, c), KeyOf(last, c));
    }
  }

  function UnreadAt(rows: Table, user: string): set<int> {
    set k | 0 <= k < |rows| && rows[k].receiver == user && rows[k].status == 0
  }

  /** And that is the number of positions of the user's rows with status 0. */
  lemma {:induction false} UnreadCountPositions(rows: Table, user: string)
    ensures UnreadCount(rows, user) == |UnreadAt(rows, user)|
  {
    if rows == [] {
      assert UnreadAt(rows, user) == {};
    } else {
      var n := |rows| - 1;
      var front := UnreadAt(rows[..n], user);
      UnreadCountPositions(rows[..n], user);
      assert UnreadAt(rows, user) == front + (if UnreadOf(rows[n], user) then {n} else {}) && n !in front;
    }
  }

  function FlipCount(page: seq<Message>, ok: seq<bool>): nat
    requires |ok| == |page|
  {
    if page == [] then 0
    else (if page[0].status == UNREAD && ok[0] then 1 else 0) + FlipCount(page[1..], ok[1..])
  }

  function FlippedRows(rows: Table, page: seq<Message>, ok: seq<bool>): set<int>
    requires |ok| == |page|
  {
    set k | 0 <= k < |rows| && Flipped(rows[k], page, ok)
  }

  /** The count along the page is the number of rows that change. */
  lemma {:induction false} FlipCountIsRows(rows: Table, user: string, page: seq<Message>, ok: seq<bool>)
    requires DistinctIds(rows) && PageOf(rows, user, page) && |ok| == |page|
    ensures |FlippedRows(rows, page, ok)| == FlipCount(page, ok)
    decreases page
  {
    if page == [] {
      assert FlippedRows(rows, page, ok) == {};
    } else {
      var rest, restOk := page[1..], ok[1..];
      FlipCountIsRows(rows, user, rest, restOk);
      assert page[0] in rows;
      var at :| 0 <= at < |rows| && rows[at] == page[0];
      var all, tail := FlippedRows(rows, page, ok), FlippedRows(rows, rest, restOk);
      var mark := page[0].status == UNREAD && ok[0];
      forall k ensures k in all <==> k in tail || (mark && k == at) {
        if 0 <= k < |rows| {
          FlippedFirst(rows[k], page, ok);
          assert rows[k] == page[0] ==> rows[k].id == rows[at].id;
        }
      }
      assert at !in tail by {
        assert forall i :: 0 <= i < |rest| ==> rest[i] == page[i + 1];
      }
      if mark {
        assert all == tail + {at};
      } else {
        assert all == tail;
      }
    }
  }

  lemma {:induction false} UnreadCountConcat(a: Table, b: Table, user: string)
    ensures UnreadCount(a + b, user) == UnreadCount(a, user) + UnreadCount(b, user)
  {
    if b == [] {
      assert a + b == a;
    } else {
      assert (a + b)[..|a + b| - 1] == a + b[..|b| - 1];
      UnreadCountConcat(a, b[..|b| - 1], user);
    }
  }

  lemma {:induction false} UnreadCountMiddle(a: Table, m: Message, b: Table, user: string)
    ensures UnreadCount(a + [m] + b, user)
         == UnreadCount(a, user) + UnreadCount(b, user) + if UnreadOf(m, user) then 1 else 0
  {
    UnreadCountConcat(a + [m], b, user);
    UnreadCountConcat(a, [m], user);
    assert UnreadCount([m], user) == if UnreadOf(m, user) then 1 else 0;
  }

  /** Setting an unread row of the user's to read takes one off. */
  lemma {:induction false} OneLess(rows: Table, user: string, m: Message)
    requires DistinctIds(rows) && m in rows && UnreadOf(m, user)
    ensures UnreadCount(SetStatus(rows, user, m.id, READ), user) == UnreadCount(rows, user) - 1
  {
    var k :| 0 <= k < |rows| && rows[k] == m;
    var after := SetStatus(rows, user, m.id, READ);
    var a, b := rows[..k], rows[k + 1..];
    assert rows == a + [m] + b;
    assert after == a + [m.(status := READ)] + b;
    UnreadCountMiddle(a, m, b, user);
    UnreadCountMiddle(a, m.(status := READ), b, user);
  }

  lemma {:induction false} MarksCount(rows: Table, user: string, page: seq<Message>, ok: seq<bool>)
    requires DistinctIds(rows) && PageOf(rows, user, page) && |ok| == |page|
    ensures UnreadCount(MarkAll(rows, user, page, ok), user) == UnreadCount(rows, user) - FlipCount(page, ok)
    decreases page
  {
    if page != [] {
      var mark := page[0].status == UNREAD && ok[0];
      RestOfPage(rows, user, page, mark);
      if mark {
        OneLess(rows, user, page[0]);
      }
      MarksCount(if mark then SetStatus(rows, user, page[0].id, READ) else rows, user, page[1..], ok[1..]);
    }
  }

  /** The totals by type and by level agree before and after, and both drop by the rows flipped. */
  lemma {:induction false} ListingStats(rows: Table, user: string, page: seq<Message>, ok: seq<bool>)
    requires DistinctIds(rows) && PageOf(rows, user, page) && |ok| == |page|
    ensures Total(UnreadStats(rows, user, ByType)) == Total(UnreadStats(rows, user, ByLevel))
    ensures var after := MarkAll(rows, user, page, ok);
      && Total(UnreadStats(after, user, ByType)) == Total(UnreadStats(after, user, ByLevel))
      && Total(UnreadStats(after, user, ByType)) == Total(UnreadStats(rows, user, ByType)) - FlipCount(page, ok)
  {
    MarksCount(rows, user, page, ok);
    StatsTotal(rows, user, ByType);
    StatsTotal(rows, user, ByLevel);
    StatsTotal(MarkAll(rows, user, page, ok), user, ByType);
    StatsTotal(MarkAll(rows, user, page, ok), user, ByLevel);
  }
}
