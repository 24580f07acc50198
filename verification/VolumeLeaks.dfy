/** Volumes that nobody can find any more: neither a PV refers to them nor is a goroutine in charge of them. */
module VolumeLeaks {
  import opened VolumeBalance
  import opened VolumeSafety
  import opened Volumes
  import opened Wrappers

  // ----- the call that ends a create -----

  /** In any system: a good post on a free name leaves the volume with its PV. */
  lemma {:induction false} PostEnds(sys: System, p: nat, name: string, id: string, newId: string)
    requires Inv(sys) && JobOf(sys, p) == PostPv(name, id) && name !in sys.pvs
    ensures var t := Call(sys, p, Good, newId);
      JobOf(t, p) == Over && id in t.vols && name in t.pvs && RefersTo(t.pvs[name], id)
  {
    IdRoundTrip(id);
    assert JobSound(sys, JobOf(sys, p));
  }

  /** And the compensation leaves neither exactly when it takes effect or the volume is gone already. */
  lemma {:induction false} UndoEndsIff(sys: System, p: nat, id: string, answer: Answer, newId: string)
    requires Inv(sys) && JobOf(sys, p) == UndoVol(id)
    ensures var t := Call(sys, p, answer, newId);
      JobOf(t, p) == Over && NoPvOf(t, id) && (id !in t.vols <==> answer != Bad || id !in sys.vols)
  {
    assert JobSound(sys, JobOf(sys, p));
  }

  /** The goroutine of a create that has its volume: about to post, or about to undo. */
  predicate Creating(job: Job, id: string) {
    (job.PostPv? || job.UndoVol?) && job.id == id
  }

  ghost predicate Both(sys: System, id: string) {
    id in sys.vols && !NoPvOf(sys, id)
  }

  ghost predicate Neither(sys: System, id: string) {
    id !in sys.vols && NoPvOf(sys, id)
  }

  /** Whatever else is going on: when a create that has got its volume comes to its end, it leaves the volume
      with a PV or neither, exactly when that last call is not an undoing that fails on a stored volume. */
  lemma {:induction false} CreateEndsIff(sys: System, es: seq<Event>, p: nat, id: string, answer: Answer, newId: string)
    requires Inv(sys) && NoLostPost(sys, es)
    requires var s := Run(sys, es);
      && Creating(JobOf(s, p), id) && JobOf(Call(s, p, answer, newId), p) == Over
    ensures var s := Run(sys, es);
      var t := Call(s, p, answer, newId);
      && (Both(t, id) <==> JobOf(s, p).PostPv?)
      && (Neither(t, id) <==> JobOf(s, p).UndoVol? && (answer != Bad || id !in s.vols))
  {
    RunKeeps(sys, es);
    var s := Run(sys, es);
    if JobOf(s, p).PostPv? {
      var name := JobOf(s, p).name;
      assert answer == Good && name !in s.pvs;
      PostEnds(s, p, name, id, newId);
    } else {
      UndoEndsIff(s, p, id, answer, newId);
    }
  }

  // ----- volumes in charge of somebody -----

  predicate Holds(job: Job, id: string) {
    (job.PostPv? || job.UndoVol? || job.DeleteVol?) && job.id == id
  }

  ghost predicate Held(sys: System, id: string) {
    exists p :: Holds(JobOf(sys, p), id)
  }

  ghost predicate HeldElsewhere(sys: System, p: nat, id: string) {
    exists q :: q != p && Holds(JobOf(sys, q), id)
  }

  /** Every volume has a PV, or a goroutine that will see to it. */
  ghost predicate NoOrphan(sys: System) {
    forall id :: id in sys.vols ==> !NoPvOf(sys, id) || Held(sys, id)
  }

  /** Calls that let go of a volume: a create that is lost, a deletion of the volume that fails, and a
      deletion of its PV by a goroutine that does not hear of it or has read another volume's path. */
  predicate Drops(sys: System, p: nat, answer: Answer, newId: string, id: string) {
    match JobOf(sys, p)
    case CreateVol(_) => answer == Lost && newId !in sys.used && id == newId
    case UndoVol(i) => answer == Bad && id == i && id in sys.vols
    case DeleteVol(i) => answer == Bad && id == i && id in sys.vols
    case DeletePv(name, path) =>
      answer != Bad && name in sys.pvs && RefersTo(sys.pvs[name], id) && (answer == Lost || !RefersTo(path, id))
    case _ => false
  }

  ghost predicate LetsGo(sys: System, p: nat, answer: Answer, newId: string) {
    exists id :: Drops(sys, p, answer, newId, id) && !HeldElsewhere(sys, p, id)
  }

  lemma {:induction false} HeldAfterCall(sys: System, p: nat, answer: Answer, newId: string, id: string)
    ensures var t := Call(sys, p, answer, newId);
      Held(t, id) <==> Holds(JobOf(t, p), id) || HeldElsewhere(sys, p, id)
    ensures Held(sys, id) <==> Holds(JobOf(sys, p), id) || HeldElsewhere(sys, p, id)
  {
    var t := Call(sys, p, answer, newId);
    forall q ensures q != p ==> JobOf(t, q) == JobOf(sys, q) {}
    if HeldElsewhere(sys, p, id) {
      var q :| q != p && Holds(JobOf(sys, q), id);
      assert Holds(JobOf(t, q), id);
    }
  }

  /** A volume that nobody else is in charge of, before and after one call. */
  lemma {:induction false} OneVolume(sys: System, p: nat, answer: Answer, newId: string, id: string)
    requires Inv(sys) && id in Call(sys, p, answer, newId).vols
    requires id in sys.vols ==> !NoPvOf(sys, id) || Holds(JobOf(sys, p), id)
    ensures var t := Call(sys, p, answer, newId);
      NoPvOf(t, id) && !Holds(JobOf(t, p), id) <==> Drops(sys, p, answer, newId, id)
  {
    var job := JobOf(sys, p);
    assert JobSound(sys, job);
    match job
    case PostPv(name, i) => VolumeOfPost(sys, p, name, i, answer, newId, id);
    case DeletePv(name, path) => VolumeOfDeletePv(sys, p, name, path, answer, newId, id);
    case _ =>
  }

  lemma {:induction false} VolumeOfPost(sys: System, p: nat, name: string, i: string, answer: Answer, newId: string,
                                        id: string)
    requires Inv(sys) && JobOf(sys, p) == PostPv(name, i)
    requires id in sys.vols ==> !NoPvOf(sys, id) || id == i
    requires id in sys.vols
    ensures var t := Call(sys, p, answer, newId); !(NoPvOf(t, id) && !Holds(JobOf(t, p), id))
  {
    IdRoundTrip(i);
    var t := Call(sys, p, answer, newId);
    if !NoPvOf(sys, id) {
      var n :| n in sys.pvs && RefersTo(sys.pvs[n], id);
      assert n in t.pvs && RefersTo(t.pvs[n], id);
    } else if answer == Good && name !in sys.pvs {
      assert RefersTo(t.pvs[name], id);
    }
  }

  lemma {:induction false} VolumeOfDeletePv(sys: System, p: nat, name: string, path: Path, answer: Answer,
                                            newId: string, id: string)
    requires Inv(sys) && JobOf(sys, p) == DeletePv(name, path) && id in sys.vols && !NoPvOf(sys, id)
    ensures var t := Call(sys, p, answer, newId);
      NoPvOf(t, id) && !Holds(JobOf(t, p), id) <==> Drops(sys, p, answer, newId, id)
  {
    var t := Call(sys, p, answer, newId);
    var n :| n in sys.pvs && RefersTo(sys.pvs[n], id);
    if n != name || answer == Bad {
      assert n in t.pvs && RefersTo(t.pvs[n], id);
    }
  }

  /** Exactly when a call lets no volume out of sight: whatever it drops, another goroutine holds. */
  lemma {:induction false} CallOrphansIff(sys: System, p: nat, answer: Answer, newId: string)
    requires Inv(sys) && NoOrphan(sys)
    ensures NoOrphan(Call(sys, p, answer, newId)) <==> !LetsGo(sys, p, answer, newId)
  {
    var t := Call(sys, p, answer, newId);
    forall id ensures id in t.vols && NoPvOf(t, id) && !Held(t, id)
                 <==> Drops(sys, p, answer, newId, id) && !HeldElsewhere(sys, p, id) {
      HeldAfterCall(sys, p, answer, newId, id);
      DropsStored(sys, p, answer, newId, id);
      if id in t.vols && !HeldElsewhere(sys, p, id) {
        OneVolume(sys, p, answer, newId, id);
      }
    }
  }

  lemma {:induction false} DropsStored(sys: System, p: nat, answer: Answer, newId: string, id: string)
    requires Inv(sys)
    ensures Drops(sys, p, answer, newId, id) ==> id in Call(sys, p, answer, newId).vols
  {
    assert JobSound(sys, JobOf(sys, p));
    assert forall n :: n in sys.pvs && RefersTo(sys.pvs[n], id) ==> id in sys.vols;
  }

  /** With a good answer, exactly the PV deletions that act on a stale read: under the name there is by now a
      PV of another volume than the one read. */
  lemma {:induction false} GoodCallLetsGoIff(sys: System, p: nat, newId: string)
    requires Inv(sys)
    ensures LetsGo(sys, p, Good, newId) <==> StaleRead(sys, JobOf(sys, p))
  {
    var job := JobOf(sys, p);
    if StaleRead(sys, job) {
      var id := VolumeName2VolumeId(sys.pvs[job.name].value);
      assert RefersTo(sys.pvs[job.name], id);
      forall q ensures !Holds(JobOf(sys, q), id) {
        assert JobSound(sys, JobOf(sys, q));
      }
      assert Drops(sys, p, Good, newId, id);
    }
  }

  predicate StaleRead(sys: System, job: Job) {
    && job.DeletePv? && job.name in sys.pvs && sys.pvs[job.name].Some?
    && !RefersTo(job.path, VolumeName2VolumeId(sys.pvs[job.name].value))
  }

  // ----- runs -----

  ghost predicate LetsGoAt(sys: System, e: Event) {
    e.Act? && LetsGo(sys, e.p, e.answer, e.newId)
  }

  ghost predicate NeverLetsGo(sys: System, es: seq<Event>)
    decreases es
  {
    es == [] || (!LetsGoAt(sys, es[0]) && NeverLetsGo(Next(sys, es[0]), es[1..]))
  }

  ghost predicate NoOrphanThroughout(sys: System, es: seq<Event>)
    decreases es
  {
    NoOrphan(sys) && (es == [] || NoOrphanThroughout(Next(sys, es[0]), es[1..]))
  }

  lemma {:induction false} SpawnKeepsHeld(sys: System, p: nat, job: Job, id: string)
    requires p !in sys.jobs && (job.CreateVol? || job.GetPv?)
    ensures Held(Goto(sys, p, job), id) <==> Held(sys, id)
  {
    var t := Goto(sys, p, job);
    forall q ensures JobOf(t, q) == if q == p then job else JobOf(sys, q) {}
    if Held(sys, id) {
      var q :| Holds(JobOf(sys, q), id);
      assert Holds(JobOf(t, q), id);
    }
  }

  lemma {:induction false} EventOrphansIff(sys: System, e: Event)
    requires Inv(sys) && NoOrphan(sys)
    ensures NoOrphan(Next(sys, e)) <==> !LetsGoAt(sys, e)
  {
    match e
    case SpawnCreate(p, namespace, claim) =>
      if p !in sys.jobs {
        forall id { SpawnKeepsHeld(sys, p, CreateVol(PvcName2PvName(namespace, claim)), id); }
      }
    case SpawnDelete(p, namespace, claim) =>
      if p !in sys.jobs {
        forall id { SpawnKeepsHeld(sys, p, GetPv(PvcName2PvName(namespace, claim)), id); }
      }
    case Act(p, answer, newId) => CallOrphansIff(sys, p, answer, newId);
  }

  lemma {:induction false} EventKeeps(sys: System, e: Event)
    requires Inv(sys) && !LostPost(sys, e)
    ensures Inv(Next(sys, e))
  {
    var one := [e];
    assert one[1..] == [];
    assert NoLostPost(Next(sys, e), one[1..]);
    RunKeeps(sys, one);
    assert Run(sys, one) == Run(Next(sys, e), one[1..]) == Next(sys, e);
  }

  /** In every interleaving: no volume is ever lost to sight exactly when no call lets go of one. */
  lemma {:induction false} RunOrphansIff(sys: System, es: seq<Event>)
    requires Inv(sys) && NoOrphan(sys) && NoLostPost(sys, es)
    ensures NoOrphanThroughout(sys, es) <==> NeverLetsGo(sys, es)
    decreases es
  {
    if es != [] {
      EventOrphansIff(sys, es[0]);
      EventKeeps(sys, es[0]);
      if NoOrphan(Next(sys, es[0])) {
        RunOrphansIff(Next(sys, es[0]), es[1..]);
      }
    }
  }

  ghost predicate AtRest(sys: System) {
    forall p :: JobOf(sys, p) == Over
  }

  /** Volumes and PVs stand one to one. */
  ghost predicate Balanced(sys: System) {
    && (forall id :: id in sys.vols <==> !NoPvOf(sys, id))
    && NoSharing(sys)
  }

  lemma {:induction false} RestIsBalancedIff(sys: System)
    requires NoDangling(sys) && NoSharing(sys) && AtRest(sys)
    ensures Balanced(sys) <==> NoOrphan(sys)
  {
    assert forall id :: !Held(sys, id);
    forall id | !NoPvOf(sys, id) ensures id in sys.vols {
      var name :| name in sys.pvs && RefersTo(sys.pvs[name], id);
    }
  }

  lemma {:induction false} ThroughoutEnds(sys: System, es: seq<Event>)
    requires NoOrphanThroughout(sys, es)
    ensures NoOrphan(Run(sys, es))
    decreases es
  {
    if es != [] {
      ThroughoutEnds(Next(sys, es[0]), es[1..]);
    }
  }

  /** The dual of the absence of dangling PVs: from balanced stores, any run in which no call lets go of a
      volume and no failed post is stored ends balanced once all goroutines are over. */
  lemma {:induction false} RunsEndBalanced(sys: System, es: seq<Event>)
    requires Balanced(sys) && sys.vols <= sys.used && sys.jobs == map[]
    requires NoLostPost(sys, es) && NeverLetsGo(sys, es) && AtRest(Run(sys, es))
    ensures Balanced(Run(sys, es))
  {
    forall name | name in sys.pvs && sys.pvs[name].Some?
      ensures VolumeName2VolumeId(sys.pvs[name].value) in sys.vols
    {
      assert RefersTo(sys.pvs[name], VolumeName2VolumeId(sys.pvs[name].value));
    }
    QuietInv(sys);
    RunKeeps(sys, es);
    RunOrphansIff(sys, es);
    ThroughoutEnds(sys, es);
    RestIsBalancedIff(Run(sys, es));
  }

  // ----- a run that loses a volume although every call goes well -----

  /** Two goroutines delete the same claim and a third makes it again: `p` has read the PV when `q` deletes
      it, and acts on the PV that `r` has posted since. */
  datatype Trio = Trio(p: nat, q: nat, r: nat, namespace: string, claim: string, id: string)

  predicate Ready(sys: System, x: Trio) {
    && x.p != x.q && x.p != x.r && x.q != x.r
    && x.p !in sys.jobs && x.q !in sys.jobs && x.r !in sys.jobs
    && NameOfTrio(x) in sys.pvs && sys.pvs[NameOfTrio(x)].Some? && x.id !in sys.used
  }

  function NameOfTrio(x: Trio): string {
    PvcName2PvName(x.namespace, x.claim)
  }

  const ALL_GOOD := DeleteAnswers(Good, Good, Good)

  function BothRead(x: Trio): seq<Event> {
    [SpawnDelete(x.p, x.namespace, x.claim), SpawnDelete(x.q, x.namespace, x.claim), Act(x.p, Good, "")]
  }

  function MadeAgain(x: Trio): seq<Event> {
    [SpawnCreate(x.r, x.namespace, x.claim), Act(x.r, Good, x.id), Act(x.r, Good, "")]
  }

  function StaleDelete(x: Trio): seq<Event> {
    [Act(x.p, Good, ""), Act(x.p, Good, ""), Act(x.p, Good, "")]
  }

  function TrioEvents(x: Trio): seq<Event> {
    BothRead(x) + DeleteEvents(x.q, ALL_GOOD) + (MadeAgain(x) + StaleDelete(x))
  }

  lemma {:induction false} AfterBothRead(sys: System, x: Trio)
    requires Ready(sys, x)
    ensures var name := NameOfTrio(x);
      Run(sys, BothRead(x))
      == sys.(jobs := sys.jobs[x.p := DeletePv(name, sys.pvs[name])][x.q := GetPv(name)])
  {
    var es, name := BothRead(x), NameOfTrio(x);
    RunThree(sys, es[0], es[1], es[2]);
    assert sys.jobs[x.p := GetPv(name)][x.q := GetPv(name)][x.p := DeletePv(name, sys.pvs[name])]
        == sys.jobs[x.p := DeletePv(name, sys.pvs[name])][x.q := GetPv(name)];
  }

  lemma {:induction false} AfterDelete(s: System, q: nat, name: string)
    requires JobOf(s, q) == GetPv(name) && name in s.pvs && s.pvs[name].Some?
    ensures Run(s, DeleteEvents(q, ALL_GOOD))
         == s.(vols := s.vols - {VolumeName2VolumeId(s.pvs[name].value)}, pvs := s.pvs - {name},
               jobs := s.jobs[q := Over])
  {
    var es := DeleteEvents(q, ALL_GOOD);
    RunThree(s, es[0], es[1], es[2]);
    assert s.jobs[q := DeletePv(name, s.pvs[name])][q := DeleteVol(VolumeName2VolumeId(s.pvs[name].value))][q := Over]
        == s.jobs[q := Over];
  }

  lemma {:induction false} AfterMadeAgain(s: System, x: Trio)
    requires x.r !in s.jobs && NameOfTrio(x) !in s.pvs && x.id !in s.used
    ensures Run(s, MadeAgain(x))
         == System(s.vols + {x.id}, s.pvs[NameOfTrio(x) := Some(VolumeId2VolumeName(x.id))], s.used + {x.id},
                   s.jobs[x.r := Over])
  {
    var es, name := MadeAgain(x), NameOfTrio(x);
    RunThree(s, es[0], es[1], es[2]);
    assert s.jobs[x.r := CreateVol(name)][x.r := PostPv(name, x.id)][x.r := Over] == s.jobs[x.r := Over];
  }

  lemma {:induction false} AfterStaleDelete(s: System, x: Trio, path: Path)
    requires JobOf(s, x.p) == DeletePv(NameOfTrio(x), path) && path.Some? && NameOfTrio(x) in s.pvs
    ensures Run(s, StaleDelete(x))
         == s.(vols := s.vols - {VolumeName2VolumeId(path.value)}, pvs := s.pvs - {NameOfTrio(x)},
               jobs := s.jobs[x.p := Over])
  {
    var es, name := StaleDelete(x), NameOfTrio(x);
    RunThree(s, es[0], es[1], es[2]);
    assert s.jobs[x.p := DeleteVol(VolumeName2VolumeId(path.value))][x.p := Over] == s.jobs[x.p := Over];
  }

  lemma {:induction false} FirstHalf(sys: System, x: Trio)
    requires Ready(sys, x)
    ensures var name := NameOfTrio(x);
      Run(sys, BothRead(x) + DeleteEvents(x.q, ALL_GOOD))
      == sys.(vols := sys.vols - {VolumeName2VolumeId(sys.pvs[name].value)}, pvs := sys.pvs - {name},
              jobs := sys.jobs[x.p := DeletePv(name, sys.pvs[name])][x.q := Over])
  {
    var name := NameOfTrio(x);
    AfterBothRead(sys, x);
    var s1 := Run(sys, BothRead(x));
    AfterDelete(s1, x.q, name);
    NoLostPostSplit(sys, BothRead(x), DeleteEvents(x.q, ALL_GOOD));
    var jobs: map<nat, Job> := sys.jobs[x.p := DeletePv(name, sys.pvs[name])];
    assert jobs[x.q := GetPv(name)][x.q := Over] == jobs[x.q := Over];
  }

  lemma {:induction false} SecondHalf(s: System, x: Trio, path: Path)
    requires x.r !in s.jobs && NameOfTrio(x) !in s.pvs && x.id !in s.used && x.p != x.r
    requires JobOf(s, x.p) == DeletePv(NameOfTrio(x), path) && path.Some?
    ensures var t := Run(s, MadeAgain(x) + StaleDelete(x));
      && t.vols == s.vols + {x.id} - {VolumeName2VolumeId(path.value)} && t.pvs == s.pvs
      && t.jobs == s.jobs[x.r := Over][x.p := Over]
  {
    AfterMadeAgain(s, x);
    AfterStaleDelete(Run(s, MadeAgain(x)), x, path);
    NoLostPostSplit(s, MadeAgain(x), StaleDelete(x));
  }

  /** Every call goes well, all three goroutines finish, and the volume made last is left without a PV and
      without anybody in charge. */
  lemma {:induction false} StaleDeleteLeaks(sys: System, x: Trio)
    requires Inv(sys) && Ready(sys, x)
    ensures var t := Run(sys, TrioEvents(x));
      && JobOf(t, x.p) == JobOf(t, x.q) == JobOf(t, x.r) == Over
      && t.pvs == sys.pvs - {NameOfTrio(x)}
      && x.id in t.vols && NoPvOf(t, x.id) && !Held(t, x.id) && !NoOrphan(t)
  {
    var path := sys.pvs[NameOfTrio(x)];
    var old1 := VolumeName2VolumeId(path.value);
    assert RefersTo(path, old1) && old1 != x.id;
    FirstHalf(sys, x);
    var s := Run(sys, BothRead(x) + DeleteEvents(x.q, ALL_GOOD));
    SecondHalf(s, x, path);
    NoLostPostSplit(sys, BothRead(x) + DeleteEvents(x.q, ALL_GOOD), MadeAgain(x) + StaleDelete(x));
    TrioEnds(sys, Run(sys, TrioEvents(x)), x);
  }

  lemma {:induction false} TrioEnds(sys: System, t: System, x: Trio)
    requires Inv(sys) && x.id !in sys.used && x.id in t.vols
    requires t.pvs == sys.pvs - {NameOfTrio(x)}
    requires forall r :: JobOf(t, r) == JobOf(sys, r) || JobOf(t, r) == Over
    ensures NoPvOf(t, x.id) && !Held(t, x.id) && !NoOrphan(t)
  {
    forall r ensures !Holds(JobOf(t, r), x.id) {
      assert InHand(JobOf(sys, r)) != Some(x.id);
    }
  }
}
