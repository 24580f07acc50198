/** Any number of processes running the upgrade against one table, their statistic calls interleaved. */
module UpgradeProcesses {
  import opened StatTable
  import opened Upgrade
  import opened UpgradeRuns

  /** Where a process stands: each position is the call it makes next. */
  datatype Pc =
    | Idle
    | Init                 // create the tables, initialise the version
    | ReadStart            // read the version before the chain
    | ReadAt(i: nat)       // read the version for upgrader i
    | TakeAt(i: nat)       // phase: Serving to Upgrading
    | CallAt(i: nat)       // call the upgrader
    | WriteAt(i: nat)      // write its version
    | ReleaseAt(i: nat)    // phase: Upgrading to Serving
    | Serves
    | Stopped              // returned an error, or was killed

  datatype System = System(rows: Rows, pcs: map<nat, Pc>)

  /** `c` answers a transaction, `ok` any other call. */
  datatype Event =
    | Start(p: nat)
    | Kill(p: nat)
    | Advance(p: nat, c: TxCalls, ok: bool)

  function PcOf(sys: System, p: nat): Pc {
    if p in sys.pcs then sys.pcs[p] else Idle
  }

  function Goto(sys: System, rows: Rows, p: nat, pc: Pc): (after: System)
    ensures forall q :: PcOf(after, q) == if q == p then pc else PcOf(sys, q)
  {
    System(rows, sys.pcs[p := pc])
  }

  function NextUpgrader(chain: seq<Upgrader>, i: nat): Pc {
    if i + 1 < |chain| then ReadAt(i + 1) else Serves
  }

  predicate PcFits(pc: Pc, chain: seq<Upgrader>) {
    match pc
    case ReadAt(i) => i < |chain|
    case TakeAt(i) => i < |chain|
    case CallAt(i) => i < |chain|
    case WriteAt(i) => i < |chain|
    case ReleaseAt(i) => i < |chain|
    case _ => true
  }

  /** One call of process `p`. */
  function Call(sys: System, db: string, chain: seq<Upgrader>, p: nat, c: TxCalls, ok: bool): (after: System)
    requires chain != [] && PcFits(PcOf(sys, p), chain)
    ensures PcFits(PcOf(after, p), chain)
    ensures forall q :: q != p ==> PcOf(after, q) == PcOf(sys, q)
  {
    var vk, pk := VersionKey(db), PhaseKey(db);
    match PcOf(sys, p)
    case Init =>
      if !ok then Goto(sys, sys.rows, p, Stopped)
      else
        var (rows, r) := SetStatIf(sys.rows, vk, Last(chain), 0, c);
        Goto(sys, rows, p, if r.Err? && r.error != OldStatNotMatch then Stopped else ReadStart)
    case ReadStart =>
      Goto(sys, sys.rows, p, if !ok then Stopped else if Get(sys.rows, vk) == Last(chain) then Serves else ReadAt(0))
    case ReadAt(i) =>
      var stored := Get(sys.rows, vk);
      var current := if stored == 0 then 1 else stored;
      Goto(sys, sys.rows, p,
        if !ok then Stopped
        else if chain[i].newVersion <= current then NextUpgrader(chain, i)
        else if chain[i].oldVersion != current then Stopped
        else TakeAt(i))
    case TakeAt(i) =>
      var (rows, r) := SetStatIf(sys.rows, pk, UPGRADING, SERVING, c);
      Goto(sys, rows, p, if r.Err? then Stopped else CallAt(i))
    case CallAt(i) =>
      Goto(sys, sys.rows, p, if !ok then Stopped else WriteAt(i))
    case WriteAt(i) =>
      var (rows, r) := SetStat(sys.rows, vk, chain[i].newVersion, c);
      Goto(sys, rows, p, if r.Err? then Stopped else ReleaseAt(i))
    case ReleaseAt(i) =>
      var (rows, r) := SetStatIf(sys.rows, pk, SERVING, UPGRADING, c);
      Goto(sys, rows, p, if r.Err? then Stopped else NextUpgrader(chain, i))
    case _ => sys
  }

  ghost predicate AllFit(sys: System, chain: seq<Upgrader>) {
    forall p :: PcFits(PcOf(sys, p), chain)
  }

  ghost function Next(sys: System, db: string, chain: seq<Upgrader>, e: Event): (after: System)
    requires chain != [] && AllFit(sys, chain)
    ensures AllFit(after, chain)
  {
    match e
    case Start(p) =>
      var pc := PcOf(sys, p);
      if pc.Idle? || pc.Serves? || pc.Stopped? then Goto(sys, sys.rows, p, Init) else sys
    case Kill(p) => Goto(sys, sys.rows, p, Stopped)
    case Advance(p, c, ok) => Call(sys, db, chain, p, c, ok)
  }

  ghost function Run(sys: System, db: string, chain: seq<Upgrader>, es: seq<Event>): (after: System)
    requires chain != [] && AllFit(sys, chain)
    ensures AllFit(after, chain)
    decreases es
  {
    if es == [] then sys else Run(Next(sys, db, chain, es[0]), db, chain, es[1..])
  }

  // ----- mutual exclusion -----

  /** Between the phase compare-and-set to Upgrading and its release. */
  predicate Inside(pc: Pc) {
    pc.CallAt? || pc.WriteAt? || pc.ReleaseAt?
  }

  ghost predicate NoneInside(sys: System) {
    forall p :: !Inside(PcOf(sys, p))
  }

  ghost predicate Exclusive(sys: System, db: string) {
    && (forall p, q :: Inside(PcOf(sys, p)) && Inside(PcOf(sys, q)) ==> p == q)
    && (forall p :: Inside(PcOf(sys, p)) ==> Phase(sys.rows, db) == UPGRADING)
  }

  lemma {:induction false} CallKeepsExclusive(sys: System, db: string, chain: seq<Upgrader>, p: nat, c: TxCalls,
                                              ok: bool)
    requires chain != [] && PcFits(PcOf(sys, p), chain) && Exclusive(sys, db)
    ensures Exclusive(Call(sys, db, chain, p, c, ok), db)
  {
    KeysDiffer(db);
    var after := Call(sys, db, chain, p, c, ok);
    if Inside(PcOf(after, p)) && !Inside(PcOf(sys, p)) {
      assert Phase(sys.rows, db) == SERVING;
    }
  }

  /** Any number of processes, killed and restarted at will, any calls failing: at most one is inside, and
      while one is, the phase row says Upgrading. */
  lemma {:induction false} MutualExclusion(sys: System, db: string, chain: seq<Upgrader>, es: seq<Event>)
    requires chain != [] && AllFit(sys, chain) && Exclusive(sys, db)
    ensures Exclusive(Run(sys, db, chain, es), db)
    decreases es
  {
    if es != [] {
      var next := Next(sys, db, chain, es[0]);
      match es[0] {
        case Advance(p, c, ok) => CallKeepsExclusive(sys, db, chain, p, c, ok);
        case _ =>
      }
      MutualExclusion(next, db, chain, es[1..]);
    }
  }

  /** From a system with nobody inside. */
  lemma {:induction false} AtMostOneInside(sys: System, db: string, chain: seq<Upgrader>, es: seq<Event>, p: nat,
                                           q: nat)
    requires chain != [] && AllFit(sys, chain) && NoneInside(sys)
    requires var after := Run(sys, db, chain, es); Inside(PcOf(after, p)) && Inside(PcOf(after, q))
    ensures p == q
  {
    MutualExclusion(sys, db, chain, es);
  }

  // ----- a holder that fails -----

  ghost predicate Shut(sys: System, db: string) {
    NoneInside(sys) && Phase(sys.rows, db) != SERVING
  }

  lemma {:induction false} CallKeepsShut(sys: System, db: string, chain: seq<Upgrader>, p: nat, c: TxCalls, ok: bool)
    requires chain != [] && PcFits(PcOf(sys, p), chain) && Shut(sys, db)
    ensures Shut(Call(sys, db, chain, p, c, ok), db)
    ensures Phase(Call(sys, db, chain, p, c, ok).rows, db) == Phase(sys.rows, db)
  {
    KeysDiffer(db);
    var after := Call(sys, db, chain, p, c, ok);
    assert !Inside(PcOf(sys, p));
  }

  lemma {:induction false} ShutForGood(sys: System, db: string, chain: seq<Upgrader>, es: seq<Event>)
    requires chain != [] && AllFit(sys, chain) && Shut(sys, db)
    ensures Shut(Run(sys, db, chain, es), db)
    decreases es
  {
    if es != [] {
      var next := Next(sys, db, chain, es[0]);
      match es[0] {
        case Advance(p, c, ok) => CallKeepsShut(sys, db, chain, p, c, ok);
        case _ =>
      }
      ShutForGood(next, db, chain, es[1..]);
    }
  }

  /** If the process inside stops there, by an error or by being killed, no process is ever inside again. */
  lemma {:induction false} HolderStopShutsForGood(sys: System, db: string, chain: seq<Upgrader>, before: seq<Event>,
                                                  e: Event, later: seq<Event>)
    requires chain != [] && AllFit(sys, chain) && NoneInside(sys)
    requires var mid := Run(sys, db, chain, before);
      Inside(PcOf(mid, e.p)) && PcOf(Next(mid, db, chain, e), e.p) == Stopped
    ensures var mid := Run(sys, db, chain, before);
      NoneInside(Run(Next(mid, db, chain, e), db, chain, later))
  {
    MutualExclusion(sys, db, chain, before);
    KeysDiffer(db);
    var mid := Run(sys, db, chain, before);
    var stopped := Next(mid, db, chain, e);
    assert Phase(stopped.rows, db) == Phase(mid.rows, db) == UPGRADING;
    ShutForGood(stopped, db, chain, later);
  }

  // ----- one process alone -----

  predicate Only(es: seq<Event>, p: nat) {
    forall i :: 0 <= i < |es| ==> es[i].p == p
  }

  lemma {:induction false} RunConcat(sys: System, db: string, chain: seq<Upgrader>, a: seq<Event>, b: seq<Event>)
    requires chain != [] && AllFit(sys, chain)
    ensures Run(sys, db, chain, a + b) == Run(Run(sys, db, chain, a), db, chain, b)
    decreases a
  {
    if a == [] {
      assert a + b == b;
    } else {
      assert (a + b)[0] == a[0] && (a + b)[1..] == a[1..] + b;
      RunConcat(Next(sys, db, chain, a[0]), db, chain, a[1..], b);
    }
  }

  lemma {:induction false} OneEvent(sys: System, db: string, chain: seq<Upgrader>, e: Event)
    requires chain != [] && AllFit(sys, chain)
    ensures Run(sys, db, chain, [e]) == Next(sys, db, chain, e)
  {
    assert [e][1..] == [];
    assert Run(Next(sys, db, chain, e), db, chain, []) == Next(sys, db, chain, e);
  }

  /** The four calls behind a successful read. */
  function HoldEvents(p: nat, c: UpgradeCalls): seq<Event> {
    [Advance(p, c.takePhase, true), Advance(p, TX_WELL, c.upgrade),
     Advance(p, c.writeVersion, true), Advance(p, c.releasePhase, true)]
  }

  lemma {:induction false} RunFour(sys: System, db: string, chain: seq<Upgrader>, e1: Event, e2: Event, e3: Event,
                                   e4: Event)
    requires chain != [] && AllFit(sys, chain)
    ensures Run(sys, db, chain, [e1, e2, e3, e4])
         == Next(Next(Next(Next(sys, db, chain, e1), db, chain, e2), db, chain, e3), db, chain, e4)
  {
    assert [e1, e2, e3, e4] == [e1] + ([e2] + ([e3] + [e4]));
    RunConcat(sys, db, chain, [e1], [e2] + ([e3] + [e4]));
    OneEvent(sys, db, chain, e1);
    var s1 := Next(sys, db, chain, e1);
    RunConcat(s1, db, chain, [e2], [e3] + [e4]);
    OneEvent(s1, db, chain, e2);
    var s2 := Next(s1, db, chain, e2);
    RunConcat(s2, db, chain, [e3], [e4]);
    OneEvent(s2, db, chain, e3);
    OneEvent(Next(s2, db, chain, e3), db, chain, e4);
  }

  /** After `es` the table is as given, `p` stands at `pc` and nobody else has moved. */
  ghost predicate Leads(sys: System, db: string, chain: seq<Upgrader>, es: seq<Event>, p: nat, rows: Rows, pc: Pc) {
    && chain != [] && AllFit(sys, chain) && Only(es, p)
    && var after := Run(sys, db, chain, es);
       after.rows == rows && forall q :: PcOf(after, q) == if q == p then pc else PcOf(sys, q)
  }

  /** The calls of one process for one upgrader do what _upgradeDatabase does. */
  lemma {:induction false} LoneHold(sys: System, db: string, chain: seq<Upgrader>, p: nat, i: nat, pr: Progress,
                                    c: UpgradeCalls)
    requires chain != [] && AllFit(sys, chain) && PcOf(sys, p) == TakeAt(i) && i < |chain|
    requires pr.rows == sys.rows && !pr.failed && c.readVersion
    requires var v := Version(sys.rows, db);
      chain[i].oldVersion == (if v == 0 then 1 else v) && chain[i].newVersion > chain[i].oldVersion
    ensures var q := UpgradeOne(pr, db, chain[i], c);
      Leads(sys, db, chain, HoldEvents(p, c), p, q.rows, if q.failed then Stopped else NextUpgrader(chain, i))
  {
    var es := HoldEvents(p, c);
    RunFour(sys, db, chain, es[0], es[1], es[2], es[3]);
  }

  lemma {:induction false} LoneTurn(sys: System, db: string, chain: seq<Upgrader>, p: nat, i: nat, pr: Progress,
                                    c: UpgradeCalls)
    returns (es: seq<Event>)
    requires chain != [] && AllFit(sys, chain) && PcOf(sys, p) == ReadAt(i) && i < |chain|
    requires pr.rows == sys.rows && !pr.failed
    requires chain[i].oldVersion < chain[i].newVersion
    ensures es == [Advance(p, TX_WELL, c.readVersion)] || es == [Advance(p, TX_WELL, c.readVersion)] + HoldEvents(p, c)
    ensures var q := UpgradeOne(pr, db, chain[i], c);
      Leads(sys, db, chain, es, p, q.rows, if q.failed then Stopped else NextUpgrader(chain, i))
  {
    var read := Advance(p, TX_WELL, c.readVersion);
    var s1 := Next(sys, db, chain, read);
    OneEvent(sys, db, chain, read);
    es := [read];
    if PcOf(s1, p) == TakeAt(i) {
      LoneHold(s1, db, chain, p, i, pr, c);
      RunConcat(sys, db, chain, [read], HoldEvents(p, c));
      es := [read] + HoldEvents(p, c);
    }
  }

  lemma {:induction false} LoneWalk(sys: System, db: string, chain: seq<Upgrader>, p: nat, i: nat, pr: Progress,
                                    cs: seq<UpgradeCalls>)
    returns (es: seq<Event>)
    requires WellFormed(chain) && AllFit(sys, chain) && i <= |chain| && |cs| == |chain| - i
    requires PcOf(sys, p) == (if pr.failed then Stopped else if i < |chain| then ReadAt(i) else Serves)
    requires pr.rows == sys.rows
    ensures var q := UpgradeAll(pr, db, chain[i..], cs);
      Leads(sys, db, chain, es, p, q.rows, if q.failed then Stopped else Serves)
    decreases |chain| - i
  {
    if i == |chain| || pr.failed {
      es := [];
    } else {
      var q := UpgradeOne(pr, db, chain[i], cs[0]);
      es := LoneTurn(sys, db, chain, p, i, pr, cs[0]);
      var mid := Run(sys, db, chain, es);
      assert chain[i..][1..] == chain[i + 1..];
      var rest := LoneWalk(mid, db, chain, p, i + 1, q, cs[1..]);
      RunConcat(sys, db, chain, es, rest);
      es := es + rest;
    }
  }

  /** Every run of TryToUpgradeDatabase is a run of one process of this system. */
  lemma {:induction false} LoneRun(sys: System, db: string, chain: seq<Upgrader>, p: nat, s: StartCalls,
                                   cs: seq<UpgradeCalls>)
    returns (es: seq<Event>)
    requires WellFormed(chain) && AllFit(sys, chain) && PcOf(sys, p) == Init && |cs| == |chain|
    ensures |es| >= 2 && es[..2] == [Advance(p, s.initVersion, s.createTables), Advance(p, TX_WELL, s.readVersion)]
    ensures var q := TryUpgrade(sys.rows, UNKNOWN, db, chain, true, s, cs);
      Leads(sys, db, chain, es, p, q.rows, if q.failed then Stopped else Serves)
  {
    var e1, e2 := Advance(p, s.initVersion, s.createTables), Advance(p, TX_WELL, s.readVersion);
    var s1 := Next(sys, db, chain, e1);
    var s2 := Next(s1, db, chain, e2);
    OneEvent(sys, db, chain, e1);
    OneEvent(s1, db, chain, e2);
    RunConcat(sys, db, chain, [e1], [e2]);
    es := [e1] + [e2];
    assert Run(sys, db, chain, es) == s2;
    if PcOf(s2, p) == ReadAt(0) {
      assert chain[0..] == chain;
      var rest := LoneWalk(s2, db, chain, p, 0, Progress(s2.rows, UNKNOWN, [], [], false), cs);
      RunConcat(sys, db, chain, es, rest);
      es := es + rest;
    }
  }

  // ----- when several processes can take the version back -----

  /** In the middle of a run. */
  predicate Under(pc: Pc) {
    !(pc.Idle? || pc.Serves? || pc.Stopped?)
  }

  ghost predicate NoneUnderWay(sys: System) {
    forall p :: !Under(PcOf(sys, p))
  }

  /** Past the read of the version, for an upgrader. */
  predicate PastRead(pc: Pc) {
    pc.TakeAt? || Inside(pc)
  }

  /** The start of an upgrader other than the last one. */
  predicate StartsEarly(chain: seq<Upgrader>, version: int) {
    exists k :: 0 <= k < |chain| - 1 && chain[k].oldVersion == version
  }

  /** The version, seen from the rows with nobody under way. */
  predicate CanGoBack(rows: Rows, db: string, chain: seq<Upgrader>) {
    Version(rows, db) != 0 && Phase(rows, db) == SERVING && StartsEarly(chain, Version(rows, db))
  }

  ghost predicate GoesDown(sys: System, db: string, chain: seq<Upgrader>, es: seq<Event>, later: seq<Event>)
    requires chain != [] && AllFit(sys, chain)
  {
    var mid := Run(sys, db, chain, es);
    Version(Run(mid, db, chain, later).rows, db) < Version(mid.rows, db)
  }

  // A version from which only the last upgrader can start.

  ghost predicate OnlyLast(sys: System, db: string, chain: seq<Upgrader>)
    requires chain != []
  {
    && (forall p :: Under(PcOf(sys, p)) && PcOf(sys, p) != Init ==> Version(sys.rows, db) != 0)
    && (forall p :: PastRead(PcOf(sys, p)) ==> PcOf(sys, p).i == |chain| - 1 && Version(sys.rows, db) <= Last(chain))
    && (Version(sys.rows, db) != 0 ==> !StartsEarly(chain, Version(sys.rows, db)))
  }

  lemma {:induction false} LastStartsNothing(chain: seq<Upgrader>)
    requires WellFormed(chain)
    ensures Last(chain) > 0 && !StartsEarly(chain, Last(chain))
    ensures forall i :: 0 <= i < |chain| ==> chain[i].newVersion <= Last(chain)
  {
    forall k | 0 <= k < |chain| ensures chain[k].oldVersion < chain[k].newVersion <= Last(chain) {
      if k < |chain| - 1 { LinkedGoesUp(chain, k, |chain| - 1); }
    }
  }

  lemma {:induction false} CallKeepsOnlyLast(sys: System, db: string, chain: seq<Upgrader>, p: nat, c: TxCalls,
                                             ok: bool)
    requires WellFormed(chain) && PcFits(PcOf(sys, p), chain) && OnlyLast(sys, db, chain)
    ensures OnlyLast(Call(sys, db, chain, p, c, ok), db, chain)
    ensures Version(Call(sys, db, chain, p, c, ok).rows, db) >= Version(sys.rows, db)
  {
    KeysDiffer(db);
    LastStartsNothing(chain);
    var after := Call(sys, db, chain, p, c, ok);
    assert Version(after.rows, db) == Version(sys.rows, db) || Version(after.rows, db) == Last(chain);
    if PastRead(PcOf(after, p)) && !PastRead(PcOf(sys, p)) {
      assert chain[PcOf(after, p).i].oldVersion == Version(sys.rows, db);
    }
  }

  lemma {:induction false} OnlyLastGoesUp(sys: System, db: string, chain: seq<Upgrader>, es: seq<Event>)
    requires WellFormed(chain) && AllFit(sys, chain) && OnlyLast(sys, db, chain)
    ensures OnlyLast(Run(sys, db, chain, es), db, chain)
    ensures Version(Run(sys, db, chain, es).rows, db) >= Version(sys.rows, db)
    decreases es
  {
    if es != [] {
      var next := Next(sys, db, chain, es[0]);
      match es[0] {
        case Advance(p, c, ok) => CallKeepsOnlyLast(sys, db, chain, p, c, ok);
        case _ =>
      }
      OnlyLastGoesUp(next, db, chain, es[1..]);
    }
  }

  // A phase that is not free.

  ghost predicate ShutAt(sys: System, db: string, version: int) {
    Shut(sys, db) && Version(sys.rows, db) == version != 0
  }

  lemma {:induction false} CallKeepsShutAt(sys: System, db: string, chain: seq<Upgrader>, p: nat, c: TxCalls,
                                           ok: bool, version: int)
    requires chain != [] && PcFits(PcOf(sys, p), chain) && ShutAt(sys, db, version)
    ensures ShutAt(Call(sys, db, chain, p, c, ok), db, version)
  {
    KeysDiffer(db);
    CallKeepsShut(sys, db, chain, p, c, ok);
    assert !Inside(PcOf(sys, p));
  }

  lemma {:induction false} ShutStands(sys: System, db: string, chain: seq<Upgrader>, es: seq<Event>, version: int)
    requires chain != [] && AllFit(sys, chain) && ShutAt(sys, db, version)
    ensures ShutAt(Run(sys, db, chain, es), db, version)
    decreases es
  {
    if es != [] {
      var next := Next(sys, db, chain, es[0]);
      match es[0] {
        case Advance(p, c, ok) => CallKeepsShutAt(sys, db, chain, p, c, ok, version);
        case _ =>
      }
      ShutStands(next, db, chain, es[1..], version);
    }
  }

  /** Otherwise the version never goes down. */
  lemma {:induction false} NeverGoesDown(sys: System, db: string, chain: seq<Upgrader>, es: seq<Event>,
                                         later: seq<Event>)
    requires WellFormed(chain) && AllFit(sys, chain) && NoneUnderWay(sys) && !CanGoBack(sys.rows, db, chain)
    ensures !GoesDown(sys, db, chain, es, later)
  {
    var v := Version(sys.rows, db);
    if v != 0 && Phase(sys.rows, db) != SERVING {
      assert forall p :: Inside(PcOf(sys, p)) ==> Under(PcOf(sys, p));
      ShutStands(sys, db, chain, es, v);
      ShutStands(Run(sys, db, chain, es), db, chain, later, v);
    } else {
      assert forall p :: PastRead(PcOf(sys, p)) ==> Under(PcOf(sys, p));
      OnlyLastGoesUp(sys, db, chain, es);
      OnlyLastGoesUp(Run(sys, db, chain, es), db, chain, later);
    }
  }

  // A run that takes the version back.

  lemma {:induction false} LeadsOn(sys: System, db: string, chain: seq<Upgrader>, a: seq<Event>, b: seq<Event>, p: nat,
                                   rows: Rows, pc: Pc, rows2: Rows, pc2: Pc)
    requires Leads(sys, db, chain, a, p, rows, pc) && Leads(Run(sys, db, chain, a), db, chain, b, p, rows2, pc2)
    ensures Leads(sys, db, chain, a + b, p, rows2, pc2)
  {
    RunConcat(sys, db, chain, a, b);
  }

  lemma {:induction false} LeadsByOne(sys: System, db: string, chain: seq<Upgrader>, e: Event, pc: Pc)
    requires chain != [] && AllFit(sys, chain)
    requires Next(sys, db, chain, e) == Goto(sys, sys.rows, e.p, pc)
    ensures Leads(sys, db, chain, [e], e.p, sys.rows, pc)
  {
    OneEvent(sys, db, chain, e);
  }

  /** A run starts, and finds the version initialised. */
  lemma {:induction false} StartsRun(sys: System, db: string, chain: seq<Upgrader>, p: nat) returns (es: seq<Event>)
    requires chain != [] && AllFit(sys, chain) && !Under(PcOf(sys, p))
    ensures Leads(sys, db, chain, es, p, sys.rows, Init)
  {
    LeadsByOne(sys, db, chain, Start(p), Init);
    es := [Start(p)];
  }

  lemma {:induction false} ReachesFirstRead(sys: System, db: string, chain: seq<Upgrader>, p: nat)
    returns (es: seq<Event>)
    requires chain != [] && AllFit(sys, chain) && PcOf(sys, p) == Init
    requires Version(sys.rows, db) != 0 && Version(sys.rows, db) != Last(chain)
    ensures Leads(sys, db, chain, es, p, sys.rows, ReadAt(0))
  {
    var e1, e2 := Advance(p, TX_WELL, true), Advance(p, TX_WELL, true);
    LeadsByOne(sys, db, chain, e1, ReadStart);
    var s1 := Run(sys, db, chain, [e1]);
    assert s1 == Goto(sys, sys.rows, p, ReadStart) by { OneEvent(sys, db, chain, e1); }
    LeadsByOne(s1, db, chain, e2, ReadAt(0));
    LeadsOn(sys, db, chain, [e1], [e2], p, sys.rows, ReadStart, sys.rows, ReadAt(0));
    es := [e1] + [e2];
  }

  /** Upgraders below the version are passed over. */
  lemma {:induction false} ReachesTake(sys: System, db: string, chain: seq<Upgrader>, p: nat, i: nat, k: nat)
    returns (es: seq<Event>)
    requires WellFormed(chain) && AllFit(sys, chain) && i <= k < |chain| && PcOf(sys, p) == ReadAt(i)
    requires Version(sys.rows, db) == chain[k].oldVersion != 0
    ensures Leads(sys, db, chain, es, p, sys.rows, TakeAt(k))
    decreases k - i
  {
    var read := Advance(p, TX_WELL, true);
    if i == k {
      LeadsByOne(sys, db, chain, read, TakeAt(k));
      es := [read];
    } else {
      LinkedGoesUp(chain, i, k);
      LeadsByOne(sys, db, chain, read, ReadAt(i + 1));
      var s1 := Run(sys, db, chain, [read]);
      var rest := ReachesTake(s1, db, chain, p, i + 1, k);
      LeadsOn(sys, db, chain, [read], rest, p, sys.rows, ReadAt(i + 1), sys.rows, TakeAt(k));
      es := [read] + rest;
    }
  }

  lemma {:induction false} GoesStale(sys: System, db: string, chain: seq<Upgrader>, p: nat, k: nat)
    returns (es: seq<Event>)
    requires WellFormed(chain) && AllFit(sys, chain) && k < |chain| - 1 && !Under(PcOf(sys, p))
    requires Version(sys.rows, db) == chain[k].oldVersion != 0
    ensures Leads(sys, db, chain, es, p, sys.rows, TakeAt(k))
  {
    LinkedGoesUp(chain, k, |chain| - 1);
    var a := StartsRun(sys, db, chain, p);
    var s1 := Run(sys, db, chain, a);
    var b := ReachesFirstRead(s1, db, chain, p);
    LeadsOn(sys, db, chain, a, b, p, sys.rows, Init, sys.rows, ReadAt(0));
    var c := ReachesTake(Run(sys, db, chain, a + b), db, chain, p, 0, k);
    LeadsOn(sys, db, chain, a + b, c, p, sys.rows, ReadAt(0), sys.rows, TakeAt(k));
    es := a + b + c;
  }

  /** A process past its read takes a free phase and writes its version, whatever the version is by now. */
  lemma {:induction false} StaleHold(sys: System, db: string, chain: seq<Upgrader>, p: nat, i: nat)
    requires WellFormed(chain) && AllFit(sys, chain) && i < |chain| && PcOf(sys, p) == TakeAt(i)
    requires Phase(sys.rows, db) == SERVING
    ensures Version(Run(sys, db, chain, HoldEvents(p, UPGRADE_WELL)).rows, db) == chain[i].newVersion
  {
    KeysDiffer(db);
    var es := HoldEvents(p, UPGRADE_WELL);
    RunFour(sys, db, chain, es[0], es[1], es[2], es[3]);
  }

  /** One process runs alone and reaches the last version. */
  lemma {:induction false} FinishesAlone(sys: System, db: string, chain: seq<Upgrader>, q: nat) returns (es: seq<Event>)
    requires WellFormed(chain) && AllFit(sys, chain) && !Under(PcOf(sys, q))
    requires Phase(sys.rows, db) == SERVING && OnChain(chain, Version(sys.rows, db)) && Version(sys.rows, db) != 0
    requires Version(sys.rows, db) < Last(chain)
    ensures AllFit(Run(sys, db, chain, es), chain)
    ensures var after := Run(sys, db, chain, es);
      && Version(after.rows, db) == Last(chain) && Phase(after.rows, db) == SERVING
      && PcOf(after, q) == Serves && forall p :: p != q ==> PcOf(after, p) == PcOf(sys, p)
  {
    var a := StartsRun(sys, db, chain, q);
    var s1 := Run(sys, db, chain, a);
    CleanRunServesIff(sys.rows, UNKNOWN, db, chain);
    var b := LoneRun(s1, db, chain, q, START_WELL, AllWell(|chain|));
    RunConcat(sys, db, chain, a, b);
    es := a + b;
  }

  /** The version is read before the phase is taken: while one process holds a stale read, another can
      finish the whole chain, and the first then runs its upgrader again and writes the version back. */
  lemma {:induction false} VersionCanGoBack(sys: System, db: string, chain: seq<Upgrader>)
    returns (all: seq<Event>, back: seq<Event>)
    requires WellFormed(chain) && AllFit(sys, chain) && NoneUnderWay(sys) && CanGoBack(sys.rows, db, chain)
    ensures GoesDown(sys, db, chain, all, back)
    ensures Version(Run(sys, db, chain, all).rows, db) == Last(chain)
  {
    var k :| 0 <= k < |chain| - 1 && chain[k].oldVersion == Version(sys.rows, db);
    LinkedGoesUp(chain, k, |chain| - 1);
    var a := GoesStale(sys, db, chain, 0, k);
    var s1 := Run(sys, db, chain, a);
    var b := FinishesAlone(s1, db, chain, 1);
    all, back := a + b, HoldEvents(0, UPGRADE_WELL);
    RunConcat(sys, db, chain, a, b);
    StaleHold(Run(s1, db, chain, b), db, chain, 0, k);
  }

  /** Exactly when some processes, from none under way, can make the stored version go down. */
  lemma {:induction false} GoesDownIff(sys: System, db: string, chain: seq<Upgrader>)
    requires WellFormed(chain) && AllFit(sys, chain) && NoneUnderWay(sys)
    ensures (exists es, later :: GoesDown(sys, db, chain, es, later)) <==> CanGoBack(sys.rows, db, chain)
  {
    if CanGoBack(sys.rows, db, chain) {
      var all, back := VersionCanGoBack(sys, db, chain);
    } else {
      forall es, later ensures !GoesDown(sys, db, chain, es, later) {
        NeverGoesDown(sys, db, chain, es, later);
      }
    }
  }

  const SHIPPED: seq<Upgrader> := [Upgrader(0, 1)]

  /** With the one upgrader there is, the version never goes down. */
  lemma {:induction false} ShippedNeverGoesDown(sys: System, db: string, es: seq<Event>, later: seq<Event>)
    requires AllFit(sys, SHIPPED) && NoneUnderWay(sys)
    ensures !GoesDown(sys, db, SHIPPED, es, later)
  {
    NeverGoesDown(sys, db, SHIPPED, es, later);
  }
}
