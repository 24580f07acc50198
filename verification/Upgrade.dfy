/** The database upgrade of notification.go, run by one process. */
module Upgrade {
  import opened StatTable
  import StatKeys

  datatype Upgrader = Upgrader(oldVersion: int, newVersion: int)

  const UNKNOWN := -1
  const SERVING := 0
  const UPGRADING := 1

  /** The answers to the calls made before the chain of upgraders is walked. */
  datatype StartCalls = StartCalls(createTables: bool, initVersion: TxCalls, readVersion: bool)

  /** The answers to the calls made for one upgrader. */
  datatype UpgradeCalls = UpgradeCalls(
    readVersion: bool, takePhase: TxCalls, upgrade: bool, writeVersion: TxCalls, releasePhase: TxCalls)

  const START_WELL := StartCalls(true, TX_WELL, true)
  const UPGRADE_WELL := UpgradeCalls(true, TX_WELL, true, TX_WELL, TX_WELL)

  /** Where a run stands: the table, the process's dbPhase, the upgraders called so far, those whose
      version was written, and whether an error was returned. */
  datatype Progress = Progress(rows: Rows, dbPhase: int, ran: seq<Upgrader>, written: seq<Upgrader>, failed: bool)

  function VersionKey(dbName: string): string {
    StatKeys.StatKey([dbName], StatKeys.VERSION)
  }

  function PhaseKey(dbName: string): string {
    StatKeys.StatKey([dbName], StatKeys.PHASE)
  }

  function Fail(p: Progress): Progress {
    p.(failed := true)
  }

  /** _upgradeDatabase */
  function UpgradeOne(p: Progress, dbName: string, up: Upgrader, c: UpgradeCalls): Progress {
    var stored := Get(p.rows, VersionKey(dbName));
    var current := if stored == 0 then 1 else stored;
    if !c.readVersion then Fail(p)
    else if up.newVersion <= current then p
    else if up.oldVersion != current then Fail(p)
    else
      var (rows1, taken) := SetStatIf(p.rows, PhaseKey(dbName), UPGRADING, SERVING, c.takePhase);
      if taken.Err? then Fail(p)
      else
        var p1 := Progress(rows1, UPGRADING, p.ran + [up], p.written, false);
        if !c.upgrade then Fail(p1)
        else
          var (rows2, set2) := SetStat(rows1, VersionKey(dbName), up.newVersion, c.writeVersion);
          if set2.Err? then Fail(p1)
          else
            var p2 := p1.(rows := rows2, written := p.written + [up]);
            var (rows3, released) := SetStatIf(rows2, PhaseKey(dbName), SERVING, UPGRADING, c.releasePhase);
            if released.Err? then Fail(p2) else p2.(rows := rows3)
  }

  function UpgradeAll(p: Progress, dbName: string, ups: seq<Upgrader>, cs: seq<UpgradeCalls>): Progress
    requires |cs| == |ups|
    decreases ups
  {
    if ups == [] || p.failed then p
    else UpgradeAll(UpgradeOne(p, dbName, ups[0], cs[0]), dbName, ups[1..], cs[1..])
  }

  /** One turn of the loop over the upgraders. */
  lemma {:induction false} UpgradeAllFrom(p: Progress, dbName: string, ups: seq<Upgrader>, cs: seq<UpgradeCalls>,
                                          i: nat)
    requires |cs| == |ups| && i < |ups| && !p.failed
    ensures var q := UpgradeOne(p, dbName, ups[i], cs[i]);
      UpgradeAll(p, dbName, ups[i..], cs[i..])
      == if q.failed then q else UpgradeAll(q, dbName, ups[i + 1..], cs[i + 1..])
  {
    assert ups[i..][1..] == ups[i + 1..] && cs[i..][1..] == cs[i + 1..];
  }

  /** TryToUpgradeDatabase */
  function TryUpgrade(rows: Rows, dbPhase: int, dbName: string, chain: seq<Upgrader>, reallyNeedUpgrade: bool,
                      s: StartCalls, cs: seq<UpgradeCalls>): Progress
    requires |cs| == |chain|
  {
    var p := Progress(rows, dbPhase, [], [], false);
    if !reallyNeedUpgrade then p.(dbPhase := SERVING)
    else if chain == [] || !s.createTables then Fail(p)
    else
      var last := chain[|chain| - 1].newVersion;
      var (rows1, init) := SetStatIf(rows, VersionKey(dbName), last, 0, s.initVersion);
      if (init.Err? && init.error != OldStatNotMatch) || !s.readVersion then Fail(p.(rows := rows1))
      else if Get(rows1, VersionKey(dbName)) == last then p.(rows := rows1, dbPhase := SERVING)
      else
        var done := UpgradeAll(p.(rows := rows1, dbPhase := UNKNOWN), dbName, chain, cs);
        if done.failed then done else done.(dbPhase := SERVING)
  }

  /** A serving process: its own phase variable and the chain of upgraders it was built with. */
  class Process {
    var dbPhase: int
    const dbUpgraders: seq<Upgrader>

    constructor (dbUpgraders: seq<Upgrader>)
      ensures this.dbUpgraders == dbUpgraders && dbPhase == -1 && !IsServing()
    {
      this.dbUpgraders, dbPhase := dbUpgraders, UNKNOWN;
    }

    predicate IsServing()
      reads this
    {
      dbPhase == SERVING
    }

    method UpgradeDatabase(table: Table, dbName: string, up: Upgrader, c: UpgradeCalls)
      returns (called: bool, wrote: bool, failed: bool)
      modifies this, table
      ensures dbPhase == old(dbPhase) || dbPhase == UPGRADING
      ensures forall ran, written ::
        UpgradeOne(Progress(old(table.rows), old(dbPhase), ran, written, false), dbName, up, c)
        == Progress(table.rows, dbPhase,
                    if called then ran + [up] else ran, if wrote then written + [up] else written, failed)
    {
      called, wrote := false, false;
      var version := table.RetrieveStat(VersionKey(dbName), c.readVersion);
      if version.Err? {
        return called, wrote, true;
      }
      var currentVersion := version.stat;
      if currentVersion == 0 {
        currentVersion := 1;
      }
      if up.newVersion <= currentVersion {
        return called, wrote, false;
      }
      if up.oldVersion != currentVersion {
        return called, wrote, true;
      }
      var phase := table.UpdateOrSetStat(PhaseKey(dbName), UPGRADING, SERVING, false, c.takePhase);
      if phase.Err? {
        return called, wrote, true;
      }
      dbPhase := UPGRADING;
      called := true;
      if !c.upgrade {
        return called, wrote, true;
      }
      var set2 := table.UpdateOrSetStat(VersionKey(dbName), up.newVersion, -1, false, c.writeVersion);
      if set2.Err? {
        return called, wrote, true;
      }
      wrote := true;
      var released := table.UpdateOrSetStat(PhaseKey(dbName), SERVING, UPGRADING, false, c.releasePhase);
      return called, wrote, released.Err?;
    }

    /** The loop of TryToUpgradeDatabase. */
    method UpgradeInOrder(table: Table, dbName: string, cs: seq<UpgradeCalls>)
      returns (ran: seq<Upgrader>, written: seq<Upgrader>, failed: bool)
      requires |cs| == |dbUpgraders| && !IsServing()
      modifies this, table
      ensures !IsServing()
      ensures Progress(table.rows, dbPhase, ran, written, failed)
           == UpgradeAll(Progress(old(table.rows), old(dbPhase), [], [], false), dbName, dbUpgraders, cs)
    {
      ran, written := [], [];
      ghost var start := Progress(table.rows, dbPhase, [], [], false);
      assert dbUpgraders[0..] == dbUpgraders && cs[0..] == cs;
      for i := 0 to |dbUpgraders|
        invariant dbPhase != SERVING
        invariant UpgradeAll(start, dbName, dbUpgraders, cs)
               == UpgradeAll(Progress(table.rows, dbPhase, ran, written, false), dbName, dbUpgraders[i..], cs[i..])
      {
        var up := dbUpgraders[i];
        UpgradeAllFrom(Progress(table.rows, dbPhase, ran, written, false), dbName, dbUpgraders, cs, i);
        var called, wrote, bad := UpgradeDatabase(table, dbName, up, cs[i]);
        if called { ran := ran + [up]; }
        if wrote { written := written + [up]; }
        if bad {
          return ran, written, true;
        }
      }
      return ran, written, false;
    }

    method TryToUpgradeDatabase(table: Table, dbName: string, reallyNeedUpgrade: bool, s: StartCalls,
                                cs: seq<UpgradeCalls>)
      returns (ran: seq<Upgrader>, written: seq<Upgrader>, failed: bool)
      requires |cs| == |dbUpgraders|
      modifies this, table
      ensures Progress(table.rows, dbPhase, ran, written, failed)
           == TryUpgrade(old(table.rows), old(dbPhase), dbName, dbUpgraders, reallyNeedUpgrade, s, cs)
      ensures !old(IsServing()) ==> (IsServing() <==> !failed)
    {
      ran, written := [], [];
      if reallyNeedUpgrade {
        if |dbUpgraders| == 0 {
          return ran, written, true;
        }
        var lastDbUpgrader := dbUpgraders[|dbUpgraders| - 1];
        if !s.createTables {
          return ran, written, true;
        }
        var init := table.UpdateOrSetStat(VersionKey(dbName), lastDbUpgrader.newVersion, 0, false, s.initVersion);
        if init.Err? && init.error != OldStatNotMatch {
          return ran, written, true;
        }
        var version := table.RetrieveStat(VersionKey(dbName), s.readVersion);
        if version.Err? {
          return ran, written, true;
        }
        if version.stat != lastDbUpgrader.newVersion {
          dbPhase := UNKNOWN;
          ran, written, failed := UpgradeInOrder(table, dbName, cs);
          if failed {
            return ran, written, true;
          }
        }
      }
      dbPhase := SERVING;
      return ran, written, false;
    }
  }
}
