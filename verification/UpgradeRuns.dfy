/** What one process's upgrade runs do, with and without failing calls, once and again. */
module UpgradeRuns {
  import opened StatTable
  import opened Upgrade
  import StatKeys

  // ----- chains -----

  /** Each upgrader goes up and starts where the one before it ends. */
  predicate Linked(ups: seq<Upgrader>) {
    && (forall i :: 0 <= i < |ups| ==> 0 <= ups[i].oldVersion < ups[i].newVersion && FitsColumn(ups[i].newVersion))
    && (forall i :: 0 < i < |ups| ==> ups[i].oldVersion == ups[i - 1].newVersion)
  }

  predicate WellFormed(chain: seq<Upgrader>) {
    |chain| > 0 && Linked(chain)
  }

  function Last(chain: seq<Upgrader>): int
    requires |chain| > 0
  {
    chain[|chain| - 1].newVersion
  }

  predicate OnChain(ups: seq<Upgrader>, version: int) {
    exists i :: 0 <= i < |ups| && ups[i].oldVersion == version
  }

  /** The upgraders above a version, in order. */
  function Pending(ups: seq<Upgrader>, version: int): seq<Upgrader> {
    if ups == [] then []
    else (if ups[0].newVersion > version then [ups[0]] else []) + Pending(ups[1..], version)
  }

  lemma {:induction false} LinkedTail(ups: seq<Upgrader>)
    requires Linked(ups) && ups != []
    ensures Linked(ups[1..])
  {
    var rest := ups[1..];
    assert forall i :: 0 <= i < |rest| ==> rest[i] == ups[i + 1];
  }

  lemma {:induction false} LinkedGoesUp(ups: seq<Upgrader>, i: nat, j: nat)
    requires Linked(ups) && i < j < |ups|
    ensures ups[i].newVersion <= ups[j].oldVersion
    decreases j
  {
    if i < j - 1 { LinkedGoesUp(ups, i, j - 1); }
  }

  lemma {:induction false} AllPending(ups: seq<Upgrader>, version: int)
    requires forall i :: 0 <= i < |ups| ==> ups[i].newVersion > version
    ensures Pending(ups, version) == ups
  {
    if ups != [] {
      AllPending(ups[1..], version);
      assert ups == [ups[0]] + ups[1..];
    }
  }

  // ----- rows -----

  function Version(rows: Rows, db: string): int {
    Get(rows, VersionKey(db))
  }

  function Phase(rows: Rows, db: string): int {
    Get(rows, PhaseKey(db))
  }

  lemma {:induction false} KeysDiffer(db: string)
    ensures VersionKey(db) != PhaseKey(db)
  {
    StatKeys.VersionIsNotPhase([db]);
  }

  // ----- runs in which every call succeeds -----

  function AllWell(n: nat): seq<UpgradeCalls> {
    seq(n, _ => UPGRADE_WELL)
  }

  lemma {:induction false} RunsOne(p: Progress, db: string, up: Upgrader)
    requires !p.failed && Version(p.rows, db) == up.oldVersion != 0
    requires up.oldVersion < up.newVersion && FitsColumn(up.newVersion) && Phase(p.rows, db) == SERVING
    ensures UpgradeOne(p, db, up, UPGRADE_WELL)
         == Progress(p.rows[VersionKey(db) := up.newVersion][PhaseKey(db) := SERVING], UPGRADING,
                     p.ran + [up], p.written + [up], false)
  {
    KeysDiffer(db);
    var vk, pk := VersionKey(db), PhaseKey(db);
    assert p.rows[pk := UPGRADING][vk := up.newVersion][pk := SERVING] == p.rows[vk := up.newVersion][pk := SERVING];
  }

  lemma {:induction false} RunsAll(p: Progress, db: string, ups: seq<Upgrader>)
    requires !p.failed && Linked(ups) && |ups| > 0
    requires Version(p.rows, db) == ups[0].oldVersion != 0 && Phase(p.rows, db) == SERVING
    ensures UpgradeAll(p, db, ups, AllWell(|ups|))
         == Progress(p.rows[VersionKey(db) := Last(ups)][PhaseKey(db) := SERVING], UPGRADING,
                     p.ran + ups, p.written + ups, false)
    decreases ups
  {
    KeysDiffer(db);
    var rest := ups[1..];
    RunsOne(p, db, ups[0]);
    assert AllWell(|ups|)[1..] == AllWell(|rest|);
    assert ups == [ups[0]] + rest;
    assert p.ran + [ups[0]] + rest == p.ran + ups && p.written + [ups[0]] + rest == p.written + ups;
    if rest != [] {
      LinkedTail(ups);
      var next := UpgradeOne(p, db, ups[0], UPGRADE_WELL);
      RunsAll(next, db, rest);
      var vk, pk := VersionKey(db), PhaseKey(db);
      assert next.rows[vk := Last(rest)][pk := SERVING] == p.rows[vk := Last(rest)][pk := SERVING];
    }
  }

  /** The whole walk along a chain from a stored version other than 0. */
  function Walked(p: Progress, db: string, ups: seq<Upgrader>): Progress {
    var v := Version(p.rows, db);
    if ups == [] || v >= Last(ups) then p
    else if OnChain(ups, v) && Phase(p.rows, db) == SERVING then
      Progress(p.rows[VersionKey(db) := Last(ups)][PhaseKey(db) := SERVING], UPGRADING,
               p.ran + Pending(ups, v), p.written + Pending(ups, v), false)
    else Fail(p)
  }

  lemma {:induction false} WalkOutcome(p: Progress, db: string, ups: seq<Upgrader>)
    requires !p.failed && Linked(ups) && Version(p.rows, db) != 0
    ensures UpgradeAll(p, db, ups, AllWell(|ups|)) == Walked(p, db, ups)
    decreases ups
  {
    var v := Version(p.rows, db);
    if ups != [] {
      if ups[0].newVersion <= v {
        var rest := ups[1..];
        LinkedTail(ups);
        assert AllWell(|ups|)[1..] == AllWell(|rest|);
        WalkOutcome(p, db, rest);
        OnChainTail(ups, v);
        assert Pending(ups, v) == Pending(rest, v);
        assert UpgradeOne(p, db, ups[0], UPGRADE_WELL) == p;
      } else {
        WalkStarts(p, db, ups);
      }
    }
  }

  lemma {:induction false} WalkStarts(p: Progress, db: string, ups: seq<Upgrader>)
    requires !p.failed && Linked(ups) && Version(p.rows, db) != 0
    requires ups != [] && ups[0].newVersion > Version(p.rows, db)
    ensures UpgradeAll(p, db, ups, AllWell(|ups|)) == Walked(p, db, ups)
  {
    var v := Version(p.rows, db);
    forall i | 0 <= i < |ups| ensures ups[i].newVersion > v && (i > 0 ==> ups[i].oldVersion > v) {
      if i > 0 { LinkedGoesUp(ups, 0, i); }
    }
    AllPending(ups, v);
    if ups[0].oldVersion == v && Phase(p.rows, db) == SERVING {
      RunsAll(p, db, ups);
    } else {
      KeysDiffer(db);
      assert UpgradeOne(p, db, ups[0], UPGRADE_WELL) == Fail(p);
    }
  }

  lemma {:induction false} OnChainTail(ups: seq<Upgrader>, v: int)
    requires ups != [] && ups[0].oldVersion != v
    ensures OnChain(ups, v) <==> OnChain(ups[1..], v)
  {
    var rest := ups[1..];
    assert forall i :: 0 <= i < |rest| ==> rest[i] == ups[i + 1];
    if OnChain(ups, v) {
      var i :| 0 <= i < |ups| && ups[i].oldVersion == v;
      assert rest[i - 1].oldVersion == v;
    }
  }

  /** What the stored rows must be for a run without failing calls to end serving. */
  predicate CanServe(rows: Rows, db: string, chain: seq<Upgrader>)
    requires |chain| > 0
  {
    var v := Version(rows, db);
    v == 0 || v >= Last(chain) || (OnChain(chain, v) && Phase(rows, db) == SERVING)
  }

  /** A run without failing calls, from any rows: it ends serving exactly when the version is absent, 0,
      not below the last one, or the start of an upgrader with the phase free. It then has run exactly
      the upgraders above the stored version, in order, and none when that was absent or 0. Otherwise it
      has changed nothing. */
  lemma {:induction false} CleanRunServesIff(rows: Rows, dbPhase: int, db: string, chain: seq<Upgrader>)
    requires WellFormed(chain)
    ensures var p := TryUpgrade(rows, dbPhase, db, chain, true, START_WELL, AllWell(|chain|));
      var v := Version(rows, db);
      && (!p.failed <==> CanServe(rows, db, chain))
      && (p.failed ==> p.rows == rows && p.ran == [])
      && (!p.failed ==>
            && p.dbPhase == SERVING
            && Version(p.rows, db) == (if v == 0 || v < Last(chain) then Last(chain) else v)
            && p.ran == p.written == (if v == 0 then [] else Pending(chain, v))
            && Phase(p.rows, db) == (if p.ran == [] then Phase(rows, db) else SERVING))
  {
    KeysDiffer(db);
    var v := Version(rows, db);
    if v == 0 {
      assert rows[VersionKey(db) := Last(chain)][VersionKey(db)] == Last(chain);
    } else {
      var p := Progress(rows, UNKNOWN, [], [], false);
      WalkOutcome(p, db, chain);
      assert [] + Pending(chain, v) == Pending(chain, v);
      if v >= Last(chain) {
        LastNotPending(chain, v);
      } else {
        SomePending(chain, v);
      }
    }
  }

  lemma {:induction false} LastNotPending(chain: seq<Upgrader>, v: int)
    requires WellFormed(chain) && v >= Last(chain)
    ensures Pending(chain, v) == []
  {
    forall i | 0 <= i < |chain| ensures chain[i].newVersion <= v {
      if i < |chain| - 1 { LinkedGoesUp(chain, i, |chain| - 1); }
    }
    NonePending(chain, v);
  }

  lemma {:induction false} NonePending(ups: seq<Upgrader>, v: int)
    requires forall i :: 0 <= i < |ups| ==> ups[i].newVersion <= v
    ensures Pending(ups, v) == []
  {
    if ups != [] { NonePending(ups[1..], v); }
  }

  lemma {:induction false} SomePending(ups: seq<Upgrader>, v: int)
    requires |ups| > 0 && v < Last(ups)
    ensures Pending(ups, v) != []
  {
    if |ups| > 1 {
      SomePending(ups[1..], v);
    }
  }

  /** Any version that the chain itself can leave behind is one to serve or to go on from. */
  lemma {:induction false} ChainVersionsServe(rows: Rows, db: string, chain: seq<Upgrader>, k: nat)
    requires WellFormed(chain) && k < |chain| && Version(rows, db) == chain[k].newVersion
    requires Phase(rows, db) == SERVING
    ensures CanServe(rows, db, chain)
  {
    if k < |chain| - 1 {
      assert chain[k + 1].oldVersion == Version(rows, db);
    }
  }

  // ----- runs in which calls may fail -----

  /** What one upgrader does to the version, the phase and the log, whatever its calls answer. */
  lemma {:induction false} OneStep(p: Progress, db: string, up: Upgrader, c: UpgradeCalls)
    requires !p.failed
    ensures var q := UpgradeOne(p, db, up, c);
      var v := Version(p.rows, db);
      && (q.written == p.written ==> Version(q.rows, db) == v)
      && (q.written != p.written ==> q.written == p.written + [up] && Version(q.rows, db) == up.newVersion > v
                                     && up.oldVersion == if v == 0 then 1 else v)
      && (q.ran == p.ran || (q.ran == p.ran + [up] && Phase(p.rows, db) == SERVING))
      && (q.ran == p.ran ==> q.rows == p.rows)
      && (q.ran != p.ran && q.failed ==> Phase(q.rows, db) == UPGRADING)
      && (q.ran != p.ran && !q.failed ==> Phase(q.rows, db) == SERVING && q.written != p.written)
      && (q.dbPhase == p.dbPhase || q.dbPhase == UPGRADING)
  {
    KeysDiffer(db);
  }

  function VersionAfter(start: int, written: seq<Upgrader>): int {
    if written == [] then start else written[|written| - 1].newVersion
  }

  lemma {:induction false} WalkVersion(p: Progress, db: string, ups: seq<Upgrader>, cs: seq<UpgradeCalls>, start: int)
    requires |cs| == |ups|
    requires Version(p.rows, db) == VersionAfter(start, p.written) >= start
    ensures var q := UpgradeAll(p, db, ups, cs);
      && Version(q.rows, db) == VersionAfter(start, q.written) >= Version(p.rows, db)
      && (q.dbPhase == p.dbPhase || q.dbPhase == UPGRADING)
      && |q.written| >= |p.written|
    decreases ups
  {
    if ups != [] && !p.failed {
      OneStep(p, db, ups[0], cs[0]);
      WalkVersion(UpgradeOne(p, db, ups[0], cs[0]), db, ups[1..], cs[1..], start);
    }
  }

  /** In a fresh process, serving means no error was returned. */
  lemma {:induction false} ServingIffNoError(rows: Rows, dbPhase: int, db: string, chain: seq<Upgrader>,
                                             s: StartCalls, cs: seq<UpgradeCalls>)
    requires |cs| == |chain| && dbPhase != SERVING
    ensures var p := TryUpgrade(rows, dbPhase, db, chain, true, s, cs); p.dbPhase == SERVING <==> !p.failed
  {
    if chain != [] {
      var rows1 := SetStatIf(rows, VersionKey(db), Last(chain), 0, s.initVersion).0;
      WalkVersion(Progress(rows1, UNKNOWN, [], [], false), db, chain, cs, Version(rows1, db));
    }
  }

  /** Once the version has been initialised it never goes down, and it is the new version of the last
      upgrader whose version was written, or the one the run started from. */
  lemma {:induction false} VersionFollowsWrites(rows: Rows, dbPhase: int, db: string, chain: seq<Upgrader>,
                                                s: StartCalls, cs: seq<UpgradeCalls>)
    requires |cs| == |chain| && chain != [] && Version(rows, db) != 0
    ensures var p := TryUpgrade(rows, dbPhase, db, chain, true, s, cs);
      Version(p.rows, db) == VersionAfter(Version(rows, db), p.written) >= Version(rows, db)
  {
    WalkVersion(Progress(rows, UNKNOWN, [], [], false), db, chain, cs, Version(rows, db));
  }

  // ----- a phase left behind -----

  predicate Stuck(rows: Rows, db: string, chain: seq<Upgrader>)
    requires |chain| > 0
  {
    Version(rows, db) != 0 && Version(rows, db) < Last(chain) && Phase(rows, db) != SERVING
  }

  lemma {:induction false} StuckWalk(p: Progress, db: string, ups: seq<Upgrader>, cs: seq<UpgradeCalls>)
    requires |cs| == |ups| && |ups| > 0 && !p.failed && Stuck(p.rows, db, ups)
    ensures UpgradeAll(p, db, ups, cs) == Fail(p)
    decreases ups
  {
    var q := UpgradeOne(p, db, ups[0], cs[0]);
    OneStep(p, db, ups[0], cs[0]);
    assert q == p || q == Fail(p);
    if q == p {
      StuckWalk(p, db, ups[1..], cs[1..]);
    }
  }

  /** A phase other than Serving left below the last version: whatever the calls answer, the run errors,
      calls no upgrader and changes nothing. */
  lemma {:induction false} StuckRun(rows: Rows, dbPhase: int, db: string, chain: seq<Upgrader>, s: StartCalls,
                                    cs: seq<UpgradeCalls>)
    requires |cs| == |chain| && chain != [] && Stuck(rows, db, chain)
    ensures var p := TryUpgrade(rows, dbPhase, db, chain, true, s, cs);
      p.failed && p.ran == [] && p.rows == rows
  {
    StuckWalk(Progress(rows, UNKNOWN, [], [], false), db, chain, cs);
  }

  datatype Try = Try(start: StartCalls, calls: seq<UpgradeCalls>)

  predicate Fits(tries: seq<Try>, chain: seq<Upgrader>) {
    forall i :: 0 <= i < |tries| ==> |tries[i].calls| == |chain|
  }

  /** The rows after any number of runs, each in a new process. */
  function Tries(rows: Rows, db: string, chain: seq<Upgrader>, tries: seq<Try>): Rows
    requires Fits(tries, chain)
    decreases tries
  {
    if tries == [] then rows
    else Tries(TryUpgrade(rows, UNKNOWN, db, chain, true, tries[0].start, tries[0].calls).rows, db, chain, tries[1..])
  }

  lemma {:induction false} StuckForGood(rows: Rows, db: string, chain: seq<Upgrader>, tries: seq<Try>)
    requires Fits(tries, chain) && chain != [] && Stuck(rows, db, chain)
    ensures Tries(rows, db, chain, tries) == rows
    decreases tries
  {
    if tries != [] {
      StuckRun(rows, UNKNOWN, db, chain, tries[0].start, tries[0].calls);
      StuckForGood(rows, db, chain, tries[1..]);
    }
  }

  // ----- failing runs and then a clean one -----

  /** Rows as runs of this chain leave them. */
  predicate Sound(rows: Rows, db: string, chain: seq<Upgrader>)
    requires |chain| > 0
  {
    var v := Version(rows, db);
    && (v == 0 || v >= Last(chain) || OnChain(chain, v))
    && (Phase(rows, db) == SERVING || Phase(rows, db) == UPGRADING)
  }

  lemma {:induction false} WalkKeepsSound(p: Progress, db: string, chain: seq<Upgrader>, i: nat, cs: seq<UpgradeCalls>)
    requires WellFormed(chain) && i <= |chain| && |cs| == |chain| - i && Sound(p.rows, db, chain)
    ensures Sound(UpgradeAll(p, db, chain[i..], cs).rows, db, chain)
    decreases |chain| - i
  {
    if i < |chain| && !p.failed {
      var up := chain[i];
      OneStep(p, db, up, cs[0]);
      var q := UpgradeOne(p, db, up, cs[0]);
      if q.written != p.written && i < |chain| - 1 {
        assert chain[i + 1].oldVersion == up.newVersion;
      }
      assert chain[i..][1..] == chain[i + 1..];
      WalkKeepsSound(q, db, chain, i + 1, cs[1..]);
    }
  }

  lemma {:induction false} RunKeepsSound(rows: Rows, dbPhase: int, db: string, chain: seq<Upgrader>, s: StartCalls,
                                         cs: seq<UpgradeCalls>)
    requires WellFormed(chain) && |cs| == |chain| && Sound(rows, db, chain)
    ensures Sound(TryUpgrade(rows, dbPhase, db, chain, true, s, cs).rows, db, chain)
  {
    KeysDiffer(db);
    var rows1 := SetStatIf(rows, VersionKey(db), Last(chain), 0, s.initVersion).0;
    assert Sound(rows1, db, chain);
    assert chain[0..] == chain;
    WalkKeepsSound(Progress(rows1, UNKNOWN, [], [], false), db, chain, 0, cs);
  }

  lemma {:induction false} TriesKeepSound(rows: Rows, db: string, chain: seq<Upgrader>, tries: seq<Try>)
    requires WellFormed(chain) && Fits(tries, chain) && Sound(rows, db, chain)
    ensures Sound(Tries(rows, db, chain, tries), db, chain)
    decreases tries
  {
    if tries != [] {
      RunKeepsSound(rows, UNKNOWN, db, chain, tries[0].start, tries[0].calls);
      TriesKeepSound(TryUpgrade(rows, UNKNOWN, db, chain, true, tries[0].start, tries[0].calls).rows,
                     db, chain, tries[1..]);
    }
  }

  /** After any number of runs that failed anywhere, a run without failing calls serves exactly when the
      phase was not left behind below the last version. */
  lemma {:induction false} RecoversIff(rows: Rows, db: string, chain: seq<Upgrader>, tries: seq<Try>)
    requires WellFormed(chain) && Fits(tries, chain) && Sound(rows, db, chain)
    ensures var left := Tries(rows, db, chain, tries);
      !TryUpgrade(left, UNKNOWN, db, chain, true, START_WELL, AllWell(|chain|)).failed <==> !Stuck(left, db, chain)
  {
    TriesKeepSound(rows, db, chain, tries);
    CleanRunServesIff(Tries(rows, db, chain, tries), UNKNOWN, db, chain);
  }
}
