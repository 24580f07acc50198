/** Which calls decide how an upgrade run ends. */
module UpgradeFailures {
  import opened StatTable
  import opened Upgrade
  import opened UpgradeProcesses
  import opened UpgradeRuns

  /** A transaction none of whose calls fails. */
  predicate Answered(c: TxCalls) {
    c.begin && c.query && c.exec
  }

  predicate FitsInt(x: int) {
    -2147483648 <= x <= 2147483647
  }

  /** The rows that hold the version and the phase of a database. */
  lemma {:induction false} KeysAre(db: string)
    ensures VersionKey(db) == db + "#version" && PhaseKey(db) == db + "#phase"
    ensures db + "#version" != db + "#phase"
  {
    KeysDiffer(db);
  }

  // ----- one upgrader -----

  /** The version an upgrader is held against: 0 counts as 1. */
  function Current(rows: Rows, db: string): int {
    var v := Get(rows, db + "#version");
    if v == 0 then 1 else v
  }

  predicate Due(rows: Rows, db: string, up: Upgrader, c: UpgradeCalls) {
    c.readVersion && Current(rows, db) < up.newVersion && Current(rows, db) == up.oldVersion
  }

  predicate Takes(rows: Rows, db: string, up: Upgrader, c: UpgradeCalls) {
    Due(rows, db, up, c) && Answered(c.takePhase) && Get(rows, db + "#phase") == 0
  }

  predicate Writes(rows: Rows, db: string, up: Upgrader, c: UpgradeCalls) {
    Takes(rows, db, up, c) && c.upgrade && Answered(c.writeVersion) && FitsInt(up.newVersion)
  }

  /** For all answers: what one upgrader does to the rows, the process's phase and the log, and when it fails. */
  lemma {:induction false} OneInFull(p: Progress, db: string, up: Upgrader, c: UpgradeCalls)
    requires !p.failed && RowsFit(p.rows)
    ensures var q := UpgradeOne(p, db, up, c);
      var takes, writes := Takes(p.rows, db, up, c), Writes(p.rows, db, up, c);
      && (q.failed <==>
            !(c.readVersion && up.newVersion <= Current(p.rows, db)) && !(writes && Answered(c.releasePhase)))
      && q.ran == (if takes then p.ran + [up] else p.ran)
      && q.written == (if writes then p.written + [up] else p.written)
      && q.dbPhase == (if takes then 1 else p.dbPhase)
      && q.rows == (
           if !takes then p.rows
           else if !writes then p.rows[db + "#phase" := 1]
           else p.rows[db + "#version" := up.newVersion]
                      [db + "#phase" := if Answered(c.releasePhase) then 0 else 1])
      && RowsFit(q.rows)
  {
    KeysAre(db);
    if Takes(p.rows, db, up, c) {
      var taken := p.rows[db + "#phase" := 1];
      assert SetStatIf(p.rows, PhaseKey(db), UPGRADING, SERVING, c.takePhase) == (taken, Ok(1));
      if Writes(p.rows, db, up, c) {
        var wrote := taken[db + "#version" := up.newVersion];
        assert SetStat(taken, VersionKey(db), up.newVersion, c.writeVersion) == (wrote, Ok(up.newVersion));
        assert wrote == p.rows[db + "#version" := up.newVersion][db + "#phase" := 1];
      }
    }
  }

  // ----- the walk along the chain -----

  /** Where the walk stands before upgrader `i`. */
  function WalkTo(p: Progress, db: string, ups: seq<Upgrader>, cs: seq<UpgradeCalls>, i: nat): Progress
    requires |cs| == |ups| && i <= |ups|
  {
    UpgradeAll(p, db, ups[..i], cs[..i])
  }

  lemma {:induction false} WalkStepsOn(p: Progress, db: string, ups: seq<Upgrader>, cs: seq<UpgradeCalls>, i: nat)
    requires |cs| == |ups| && i < |ups|
    ensures var q := WalkTo(p, db, ups, cs, i);
      WalkTo(p, db, ups, cs, i + 1) == if q.failed then q else UpgradeOne(q, db, ups[i], cs[i])
    decreases i
  {
    if i == 0 {
      assert ups[..1][1..] == [] && cs[..1][1..] == [];
      if !p.failed {
        var q := UpgradeOne(p, db, ups[0], cs[0]);
        assert UpgradeAll(q, db, ups[..1][1..], cs[..1][1..]) == q;
      }
    } else if !p.failed {
      var q := UpgradeOne(p, db, ups[0], cs[0]);
      WalkStepsOn(q, db, ups[1..], cs[1..], i - 1);
      assert ups[..i][1..] == ups[1..][..i - 1] && cs[..i][1..] == cs[1..][..i - 1];
      assert ups[..i + 1][1..] == ups[1..][..i] && cs[..i + 1][1..] == cs[1..][..i];
    }
  }

  lemma {:induction false} WalkFailsBefore(p: Progress, db: string, ups: seq<Upgrader>, cs: seq<UpgradeCalls>, n: nat)
    requires |cs| == |ups| && n <= |ups| && !p.failed
    ensures WalkTo(p, db, ups, cs, n).failed
       <==> exists i :: 0 <= i < n && !WalkTo(p, db, ups, cs, i).failed
                        && UpgradeOne(WalkTo(p, db, ups, cs, i), db, ups[i], cs[i]).failed
  {
    if n == 0 {
      assert WalkTo(p, db, ups, cs, 0) == p;
    } else {
      WalkFailsBefore(p, db, ups, cs, n - 1);
      WalkStepsOn(p, db, ups, cs, n - 1);
      assert WalkTo(p, db, ups, cs, n).failed <==>
        || WalkTo(p, db, ups, cs, n - 1).failed
        || UpgradeOne(WalkTo(p, db, ups, cs, n - 1), db, ups[n - 1], cs[n - 1]).failed;
    }
  }

  /** A walk fails exactly when some upgrader that it reaches fails. */
  lemma {:induction false} WalkFailsIff(p: Progress, db: string, ups: seq<Upgrader>, cs: seq<UpgradeCalls>)
    requires |cs| == |ups| && !p.failed
    ensures UpgradeAll(p, db, ups, cs).failed
       <==> exists i :: 0 <= i < |ups| && !WalkTo(p, db, ups, cs, i).failed
                        && UpgradeOne(WalkTo(p, db, ups, cs, i), db, ups[i], cs[i]).failed
  {
    WalkFailsBefore(p, db, ups, cs, |ups|);
    assert ups[..|ups|] == ups && cs[..|cs|] == cs;
  }

  /** The process's phase after a walk is that of the last upgrader that took the phase. */
  lemma {:induction false} WalkPhase(p: Progress, db: string, ups: seq<Upgrader>, cs: seq<UpgradeCalls>)
    requires |cs| == |ups| && RowsFit(p.rows)
    ensures var q := UpgradeAll(p, db, ups, cs);
      |q.ran| >= |p.ran| && q.dbPhase == (if |q.ran| == |p.ran| then p.dbPhase else 1)
    decreases ups
  {
    if ups != [] && !p.failed {
      OneInFull(p, db, ups[0], cs[0]);
      WalkPhase(UpgradeOne(p, db, ups[0], cs[0]), db, ups[1..], cs[1..]);
    }
  }

  // ----- the whole run -----

  /** The initialisation of the version goes wrong: not when the row holds another version, which is no error. */
  predicate InitFails(rows: Rows, db: string, last: int, c: TxCalls) {
    var vk := db + "#version";
    || !c.begin || !c.query
    || (Get(rows, vk) == 0 && (!c.exec || !FitsInt(last) || (vk !in rows && last < 0)))
  }

  function Initialised(rows: Rows, db: string, last: int): Rows {
    if Get(rows, db + "#version") == 0 then rows[db + "#version" := last] else rows
  }

  lemma {:induction false} InitInFull(rows: Rows, db: string, last: int, c: TxCalls)
    ensures var (after, r) := SetStatIf(rows, VersionKey(db), last, 0, c);
      && ((r.Err? && r.error != OldStatNotMatch) <==> InitFails(rows, db, last, c))
      && after == (if InitFails(rows, db, last, c) then rows else Initialised(rows, db, last))
  {
    KeysAre(db);
  }

  /** A run that does not really need the upgrade serves at once and touches nothing. */
  lemma {:induction false} NotNeeded(rows: Rows, dbPhase: int, db: string, chain: seq<Upgrader>, s: StartCalls,
                                     cs: seq<UpgradeCalls>)
    requires |cs| == |chain|
    ensures TryUpgrade(rows, dbPhase, db, chain, false, s, cs) == Progress(rows, 0, [], [], false)
  {
  }

  /** Without upgraders, or when the tables cannot be created, a run fails before it has done anything. */
  lemma {:induction false} StopsAtOnce(rows: Rows, dbPhase: int, db: string, chain: seq<Upgrader>, s: StartCalls,
                                       cs: seq<UpgradeCalls>)
    requires |cs| == |chain| && (chain == [] || !s.createTables)
    ensures TryUpgrade(rows, dbPhase, db, chain, true, s, cs) == Progress(rows, dbPhase, [], [], true)
  {
  }

  /** For all rows, chains and answers: a run fails exactly when a call that it reaches fails, or an upgrader that
      it reaches does. The process's own phase tells where: untouched, -1, 1 once a phase was taken, and 0 if all
      is well. */
  lemma {:induction false} RunFailsIff(rows: Rows, dbPhase: int, db: string, chain: seq<Upgrader>, s: StartCalls,
                                       cs: seq<UpgradeCalls>)
    requires |cs| == |chain| && chain != [] && RowsFit(rows)
    ensures var q := TryUpgrade(rows, dbPhase, db, chain, true, s, cs);
      var last := Last(chain);
      var early := !s.createTables || InitFails(rows, db, last, s.initVersion) || !s.readVersion;
      var started := Initialised(rows, db, last);
      var walked := UpgradeAll(Progress(started, -1, [], [], false), db, chain, cs);
      var walks := Get(started, db + "#version") != last;
      && (q.failed <==> early || (walks && walked.failed))
      && (early ==> q.dbPhase == dbPhase && q.ran == [] && q.written == [])
      && (!early && !walks ==> q == Progress(started, 0, [], [], false))
      && (!early && walks ==> q.rows == walked.rows && q.ran == walked.ran && q.written == walked.written)
      && (!early && walks && q.failed ==> q.dbPhase == if q.ran == [] then -1 else 1)
      && (!q.failed ==> q.dbPhase == 0)
  {
    KeysAre(db);
    var last := Last(chain);
    InitInFull(rows, db, last, s.initVersion);
    if !InitFails(rows, db, last, s.initVersion) {
      var started := Initialised(rows, db, last);
      assert RowsFit(started);
      WalkPhase(Progress(started, -1, [], [], false), db, chain, cs);
    }
  }

  // ----- the interleaved system -----

  /** Exactly when the next call of a process ends its run with an error. */
  lemma {:induction false} CallStopsIff(sys: System, db: string, chain: seq<Upgrader>, p: nat, c: TxCalls, ok: bool)
    requires chain != [] && PcFits(PcOf(sys, p), chain) && RowsFit(sys.rows)
    requires forall i :: 0 <= i < |chain| ==> chain[i].newVersion >= 0
    requires Under(PcOf(sys, p))
    ensures var stops := PcOf(Call(sys, db, chain, p, c, ok), p) == Stopped;
      match PcOf(sys, p)
      case Init => stops <==> !ok || InitFails(sys.rows, db, Last(chain), c)
      case ReadStart => stops <==> !ok
      case ReadAt(i) => stops <==> !ok || (Current(sys.rows, db) < chain[i].newVersion
                                           && Current(sys.rows, db) != chain[i].oldVersion)
      case TakeAt(i) => stops <==> !Answered(c) || Get(sys.rows, db + "#phase") != 0
      case CallAt(i) => stops <==> !ok
      case WriteAt(i) => stops <==> !Answered(c) || !FitsInt(chain[i].newVersion)
      case ReleaseAt(i) => stops <==> !Answered(c) || (db + "#phase" in sys.rows && Get(sys.rows, db + "#phase") != 1)
      case _ => true
  {
    KeysAre(db);
    InitInFull(sys.rows, db, Last(chain), c);
  }

  /** What each call does to the rows: only three of them write. */
  lemma {:induction false} CallWrites(sys: System, db: string, chain: seq<Upgrader>, p: nat, c: TxCalls, ok: bool)
    requires chain != [] && PcFits(PcOf(sys, p), chain)
    ensures var t := Call(sys, db, chain, p, c, ok);
      var well := PcOf(t, p) != Stopped;
      t.rows == match PcOf(sys, p)
        case Init => if well then Initialised(sys.rows, db, Last(chain)) else sys.rows
        case TakeAt(i) => if well then sys.rows[db + "#phase" := 1] else sys.rows
        case WriteAt(i) => if well then sys.rows[db + "#version" := chain[i].newVersion] else sys.rows
        case ReleaseAt(i) => if well then sys.rows[db + "#phase" := 0] else sys.rows
        case _ => sys.rows
  {
    KeysAre(db);
    InitInFull(sys.rows, db, Last(chain), c);
  }

  /** A killed process has stopped, and nothing else has happened. */
  lemma {:induction false} KillStops(sys: System, db: string, chain: seq<Upgrader>, p: nat)
    requires chain != [] && AllFit(sys, chain)
    ensures var t := Next(sys, db, chain, Kill(p));
      t.rows == sys.rows && forall q :: PcOf(t, q) == if q == p then Stopped else PcOf(sys, q)
  {
  }
}
