/** The statistics table of statistics.go: one transaction reads a row and inserts or updates it. */
module StatTable {
  import opened Int64

  type Rows = map<string, int>

  datatype StatError = BeginError | QueryError | NegativeStat | ExecError | OldStatNotMatch

  /** The Go pair: a statistic, or a statistic and an error. */
  datatype StatResult = Ok(stat: int) | Err(stat: int, error: StatError)

  /** What the database answers to the calls of one transaction; commits are taken to succeed. */
  datatype TxCalls = TxCalls(begin: bool, query: bool, exec: bool)

  const TX_WELL := TxCalls(true, true, true)

  /** STAT_VALUE is an INT column, and a value outside its range is an error of the statement. */
  predicate FitsColumn(x: int) {
    -0x8000_0000 <= x < 0x8000_0000
  }

  function Get(rows: Rows, key: string): int {
    if key in rows then rows[key] else 0
  }

  /** updateOrSetStat: the rows after it and its result. */
  function UpdateOrSet(rows: Rows, key: string, delta: int, ifOldStat: int, isUpdate: bool, c: TxCalls)
    : (Rows, StatResult)
  {
    if !c.begin then (rows, Err(0, BeginError))
    else if !c.query then (rows, Err(0, QueryError))
    else if key !in rows then
      if isUpdate && ifOldStat > 0 then (rows, Err(0, OldStatNotMatch))
      else if delta < 0 then (rows, Err(0, NegativeStat))
      else if !c.exec || !FitsColumn(delta) then (rows, Err(0, ExecError))
      else (rows[key := delta], Ok(delta))
    else if ifOldStat >= 0 && ifOldStat != rows[key] then (rows, Err(rows[key], OldStatNotMatch))
    else
      var stat := if isUpdate then Wrap64(rows[key] + delta) else delta;
      if !c.exec || !FitsColumn(stat) then (rows, Err(0, ExecError))
      else (rows[key := stat], Ok(stat))
  }

  function UpdateStat(rows: Rows, key: string, delta: int, c: TxCalls): (Rows, StatResult) {
    UpdateOrSet(rows, key, delta, -1, true, c)
  }

  function SetStat(rows: Rows, key: string, newStat: int, c: TxCalls): (Rows, StatResult) {
    UpdateOrSet(rows, key, newStat, -1, false, c)
  }

  function SetStatIf(rows: Rows, key: string, newStat: int, ifOldStat: int, c: TxCalls): (Rows, StatResult) {
    UpdateOrSet(rows, key, newStat, ifOldStat, false, c)
  }

  /** The table itself; transactions work on a copy that a commit makes current. */
  class Table {
    var rows: Rows

    constructor (rows: Rows)
      ensures this.rows == rows
    {
      this.rows := rows;
    }

    method UpdateOrSetStat(key: string, delta: int, ifOldStat: int, isUpdate: bool, c: TxCalls)
      returns (r: StatResult)
      modifies this
      ensures (rows, r) == UpdateOrSet(old(rows), key, delta, ifOldStat, isUpdate, c)
    {
      if !c.begin {
        return Err(0, BeginError);
      }
      var tx := rows;
      var stat := 0;
      if !c.query {
        return Err(0, QueryError);
      }
      if key !in tx {
        if isUpdate {
          if ifOldStat >= 0 && ifOldStat != 0 {
            return Err(stat, OldStatNotMatch);
          }
        }
        stat := delta;
        if stat < 0 {
          return Err(0, NegativeStat);
        }
        if !c.exec || !FitsColumn(stat) {
          return Err(0, ExecError);
        }
        tx := tx[key := stat];
      } else {
        stat := tx[key];
        if ifOldStat >= 0 && ifOldStat != stat {
          return Err(stat, OldStatNotMatch);
        }
        if isUpdate {
          stat := Wrap64(stat + delta);
        } else {
          stat := delta;
        }
        if !c.exec || !FitsColumn(stat) {
          return Err(0, ExecError);
        }
        tx := tx[key := stat];
      }
      rows := tx;
      return Ok(stat);
    }

    /** RetrieveStat: an absent row reads as 0. */
    method RetrieveStat(key: string, query: bool) returns (r: StatResult)
      ensures r == if query then Ok(Get(rows, key)) else Err(0, QueryError)
    {
      if !query {
        return Err(0, QueryError);
      }
      if key !in rows {
        return Ok(0);
      }
      return Ok(rows[key]);
    }
  }

  // ----- a partial map from keys to integers -----

  ghost predicate RowsFit(rows: Rows) {
    forall key :: key in rows ==> FitsColumn(rows[key])
  }

  /** When an addition is accepted by the column it cannot have wrapped. */
  lemma {:induction false} AcceptedDidNotWrap(stat: int, delta: int)
    requires FitsColumn(stat) && IsInt64(delta) && FitsColumn(Wrap64(stat + delta))
    ensures Wrap64(stat + delta) == stat + delta
  {
  }

  /** An error leaves every key alone; success changes the one key to the returned value, which is
      exactly the old value (0 if absent) plus the change, or the value to set. */
  lemma {:induction false} ActsOnPartialMap(rows: Rows, key: string, delta: int, ifOldStat: int, isUpdate: bool,
                                            c: TxCalls)
    requires RowsFit(rows) && IsInt64(delta)
    ensures var (after, r) := UpdateOrSet(rows, key, delta, ifOldStat, isUpdate, c);
      && RowsFit(after)
      && (r.Err? ==> after == rows)
      && (r.Ok? ==>
            && r.stat == (if isUpdate then Get(rows, key) else 0) + delta
            && key in after && after[key] == r.stat
            && forall other :: other != key ==>
                 (other in after <==> other in rows) && Get(after, other) == Get(rows, other))
  {
    if key in rows && isUpdate && FitsColumn(Wrap64(rows[key] + delta)) {
      AcceptedDidNotWrap(rows[key], delta);
    }
  }

  /** Exactly when a transaction goes through. On an absent row the expected old value only counts in an
      update, and a set inserts whatever was expected. */
  lemma {:induction false} SucceedsIff(rows: Rows, key: string, delta: int, ifOldStat: int, isUpdate: bool, c: TxCalls)
    requires RowsFit(rows) && IsInt64(delta)
    ensures var after := (if isUpdate && key in rows then rows[key] else 0) + delta;
      UpdateOrSet(rows, key, delta, ifOldStat, isUpdate, c).1.Ok?
      <==> && c.begin && c.query && c.exec
           && -2147483648 <= after <= 2147483647
           && if key in rows then ifOldStat < 0 || ifOldStat == rows[key]
              else delta >= 0 && (isUpdate ==> ifOldStat <= 0)
  {
    if key in rows && isUpdate {
      var sum := rows[key] + delta;
      if FitsColumn(Wrap64(sum)) {
        AcceptedDidNotWrap(rows[key], delta);
      }
    }
  }

  /** Which error an unsuccessful transaction returns, in the order of its steps; only a mismatch on a stored row
      comes with a value, the stored one. */
  lemma {:induction false} ErrorsInOrder(rows: Rows, key: string, delta: int, ifOldStat: int, isUpdate: bool,
                                         c: TxCalls)
    requires UpdateOrSet(rows, key, delta, ifOldStat, isUpdate, c).1.Err?
    ensures UpdateOrSet(rows, key, delta, ifOldStat, isUpdate, c).1 ==
      if !c.begin then Err(0, BeginError)
      else if !c.query then Err(0, QueryError)
      else if key in rows && ifOldStat >= 0 && ifOldStat != rows[key] then Err(rows[key], OldStatNotMatch)
      else if key !in rows && isUpdate && ifOldStat > 0 then Err(0, OldStatNotMatch)
      else if key !in rows && delta < 0 then Err(0, NegativeStat)
      else Err(0, ExecError)
  {
  }

  /** An update adds, whatever is stored. */
  lemma {:induction false} UpdateAdds(rows: Rows, key: string, delta: int, c: TxCalls)
    requires RowsFit(rows) && IsInt64(delta)
    ensures var (after, r) := UpdateStat(rows, key, delta, c);
      var sum := (if key in rows then rows[key] else 0) + delta;
      && (r.Ok? <==> && c.begin && c.query && c.exec && -2147483648 <= sum <= 2147483647
                     && (key in rows || delta >= 0))
      && (r.Ok? ==> r.stat == sum && after == rows[key := sum])
      && (r.Err? ==> after == rows)
  {
    SucceedsIff(rows, key, delta, -1, true, c);
    ActsOnPartialMap(rows, key, delta, -1, true, c);
  }

  /** A set replaces, whatever is stored. */
  lemma {:induction false} SetReplaces(rows: Rows, key: string, newStat: int, c: TxCalls)
    requires RowsFit(rows) && IsInt64(newStat)
    ensures var (after, r) := SetStat(rows, key, newStat, c);
      && (r.Ok? <==> && c.begin && c.query && c.exec && -2147483648 <= newStat <= 2147483647
                     && (key in rows || newStat >= 0))
      && (r.Ok? ==> r.stat == newStat && after == rows[key := newStat])
      && (r.Err? ==> after == rows)
  {
  }

  /** A conditional set replaces what is stored only if that is what is expected; a negative expectation fits
      everything, and an absent row fits every expectation. */
  lemma {:induction false} SetIfReplaces(rows: Rows, key: string, newStat: int, ifOldStat: int, c: TxCalls)
    requires RowsFit(rows) && IsInt64(newStat)
    ensures var (after, r) := SetStatIf(rows, key, newStat, ifOldStat, c);
      && (r.Ok? <==> && c.begin && c.query && c.exec && -2147483648 <= newStat <= 2147483647
                     && (if key in rows then ifOldStat < 0 || ifOldStat == rows[key] else newStat >= 0))
      && (r.Ok? ==> r.stat == newStat && after == rows[key := newStat])
      && (r.Err? ==> after == rows)
  {
  }

  // ----- runs of updates -----

  datatype Update = Update(key: string, delta: int, calls: TxCalls)

  function UpdateRun(rows: Rows, us: seq<Update>): Rows
    decreases us
  {
    if us == [] then rows else UpdateRun(UpdateStat(rows, us[0].key, us[0].delta, us[0].calls).0, us[1..])
  }

  /** The sum of the deltas of `key` whose calls were accepted. */
  function Accepted(rows: Rows, us: seq<Update>, key: string): int
    decreases us
  {
    if us == [] then 0
    else
      var (after, r) := UpdateStat(rows, us[0].key, us[0].delta, us[0].calls);
      (if r.Ok? && us[0].key == key then us[0].delta else 0) + Accepted(after, us[1..], key)
  }

  /** Conservation: every key ends at its start plus what was accepted for it. */
  lemma {:induction false} RunAddsAccepted(rows: Rows, us: seq<Update>, key: string)
    requires RowsFit(rows) && forall i :: 0 <= i < |us| ==> IsInt64(us[i].delta)
    ensures Get(UpdateRun(rows, us), key) == Get(rows, key) + Accepted(rows, us, key)
    ensures RowsFit(UpdateRun(rows, us))
    decreases us
  {
    if us != [] {
      var u := us[0];
      ActsOnPartialMap(rows, u.key, u.delta, -1, true, u.calls);
      RunAddsAccepted(UpdateStat(rows, u.key, u.delta, u.calls).0, us[1..], key);
    }
  }
}
