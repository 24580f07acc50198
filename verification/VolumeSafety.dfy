/** No interleaving of create and delete goroutines leaves a PV without its volume. */
module VolumeSafety {
  import opened Volumes
  import opened Wrappers

  /** Goroutine `p` may turn to any job that is sound and apart from the others'. */
  lemma {:induction false} TurnKeeps(sys: System, p: nat, job: Job)
    requires Inv(sys) && JobSound(sys, job)
    requires InHand(job).Some? ==> InHand(job).value in sys.used
    requires forall q :: q != p ==> Apart(job, JobOf(sys, q))
    ensures Inv(Goto(sys, p, job))
  {
    var after := Goto(sys, p, job);
    forall q ensures JobOf(after, q) == if q == p then job else JobOf(sys, q) {}
    forall other ensures JobSound(sys, other) ==> JobSound(after, other) {}
  }

  lemma {:induction false} RetireKeeps(sys: System, p: nat, job: Job)
    requires Inv(sys) && (job.CreateVol? || job.GetPv? || job.Over?)
    ensures Inv(Goto(sys, p, job))
  {
    TurnKeeps(sys, p, job);
  }

  /** An id never given out is in no PV and in nobody's hand. */
  lemma {:induction false} NewVolumeKeeps(sys: System, id: string)
    requires Inv(sys) && id !in sys.used
    ensures var after := sys.(vols := sys.vols + {id}, used := sys.used + {id});
      Inv(after) && NoPvOf(after, id) && forall q :: InHand(JobOf(after, q)) != Some(id)
  {
    var after := sys.(vols := sys.vols + {id}, used := sys.used + {id});
    forall q ensures JobOf(after, q) == JobOf(sys, q) {}
    forall job ensures JobSound(sys, job) ==> JobSound(after, job) {}
  }

  /** A volume that no PV refers to and nobody is about to post may go. */
  lemma {:induction false} DropVolumeKeeps(sys: System, id: string)
    requires Inv(sys) && NoPvOf(sys, id)
    requires forall q :: JobOf(sys, q).PostPv? ==> JobOf(sys, q).id != id
    ensures Inv(sys.(vols := sys.vols - {id}))
  {
    var after := sys.(vols := sys.vols - {id});
    forall q ensures JobOf(after, q) == JobOf(sys, q) {}
    forall job ensures JobSound(sys, job) && !(job.PostPv? && job.id == id) ==> JobSound(after, job) {}
    forall name | name in after.pvs && after.pvs[name].Some?
      ensures VolumeName2VolumeId(after.pvs[name].value) in after.vols
    {
      assert !RefersTo(sys.pvs[name], id);
    }
  }

  lemma {:induction false} DropPvKeeps(sys: System, name: string)
    requires Inv(sys)
    ensures Inv(sys.(pvs := sys.pvs - {name}))
  {
    var after := sys.(pvs := sys.pvs - {name});
    forall q ensures JobOf(after, q) == JobOf(sys, q) {}
    forall job ensures JobSound(sys, job) ==> JobSound(after, job) {}
  }

  lemma {:induction false} PostKeeps(sys: System, p: nat, name: string, id: string)
    requires Inv(sys) && JobOf(sys, p) == PostPv(name, id) && name !in sys.pvs
    ensures Inv(Goto(sys.(pvs := sys.pvs[name := Some(VolumeId2VolumeName(id))]), p, Over))
  {
    IdRoundTrip(id);
    assert JobSound(sys, JobOf(sys, p));
    var path := Some(VolumeId2VolumeName(id));
    var after := Goto(sys.(pvs := sys.pvs[name := path]), p, Over);
    forall q ensures JobOf(after, q) == if q == p then Over else JobOf(sys, q) {}
    assert forall other :: RefersTo(path, other) <==> other == id;
    forall job ensures JobSound(sys, job) && InHand(job) != Some(id) ==> JobSound(after, job) {}
    forall q ensures JobSound(after, JobOf(after, q)) {
      assert q != p ==> Apart(JobOf(sys, p), JobOf(sys, q)) && JobSound(sys, JobOf(sys, q));
    }
    assert InHand(JobOf(sys, p)) == Some(id);
  }

  /** One call keeps the invariant exactly when it is not a lost post. */
  lemma {:induction false} CallKeepsIff(sys: System, p: nat, answer: Answer, newId: string)
    requires Inv(sys)
    ensures Inv(Call(sys, p, answer, newId)) <==> !LostPost(sys, Act(p, answer, newId))
  {
    if LostPost(sys, Act(p, answer, newId)) {
      LostPostBreaks(sys, p, answer, newId);
    } else {
      CallKeeps(sys, p, answer, newId);
    }
  }

  /** The goroutine is about to delete a volume that the PV it has just stored refers to. */
  lemma {:induction false} LostPostBreaks(sys: System, p: nat, answer: Answer, newId: string)
    requires LostPost(sys, Act(p, answer, newId))
    ensures !JobSound(Call(sys, p, answer, newId), JobOf(Call(sys, p, answer, newId), p))
  {
    var after, job := Call(sys, p, answer, newId), JobOf(sys, p);
    IdRoundTrip(job.id);
    assert JobOf(after, p) == UndoVol(job.id);
    assert job.name in after.pvs && RefersTo(after.pvs[job.name], job.id);
  }

  lemma {:induction false} CallKeeps(sys: System, p: nat, answer: Answer, newId: string)
    requires Inv(sys) && !LostPost(sys, Act(p, answer, newId))
    ensures Inv(Call(sys, p, answer, newId))
  {
    var job := JobOf(sys, p);
    assert JobSound(sys, job);
    match job
    case CreateVol(name) =>
      if answer == Bad {
        RetireKeeps(sys, p, Over);
      } else if newId !in sys.used {
        NewVolumeKeeps(sys, newId);
        var made := sys.(vols := sys.vols + {newId}, used := sys.used + {newId});
        TurnKeeps(made, p, if answer == Good then PostPv(name, newId) else Over);
      }
    case PostPv(name, id) =>
      if answer == Bad || name in sys.pvs {
        GiveUpKeeps(sys, p, name, id);
      } else {
        PostKeeps(sys, p, name, id);
      }
    case UndoVol(id) => DropCondemned(sys, p, id, answer);
    case GetPv(name) =>
      if answer != Good || name !in sys.pvs {
        RetireKeeps(sys, p, Over);
      } else {
        LookKeeps(sys, p, name);
      }
    case DeletePv(name, path) =>
      if answer == Bad || name !in sys.pvs {
        RetireKeeps(sys, p, Over);
      } else {
        DeletePvKeeps(sys, p, name, path, answer);
      }
    case DeleteVol(id) => DropCondemned(sys, p, id, answer);
    case Over =>
  }

  lemma {:induction false} GiveUpKeeps(sys: System, p: nat, name: string, id: string)
    requires Inv(sys) && JobOf(sys, p) == PostPv(name, id)
    ensures Inv(Goto(sys, p, UndoVol(id)))
  {
    assert JobSound(sys, JobOf(sys, p)) && InHand(JobOf(sys, p)) == Some(id);
    forall q | q != p ensures Apart(UndoVol(id), JobOf(sys, q)) {
      assert Apart(JobOf(sys, p), JobOf(sys, q));
    }
    TurnKeeps(sys, p, UndoVol(id));
  }

  lemma {:induction false} LookKeeps(sys: System, p: nat, name: string)
    requires Inv(sys) && name in sys.pvs
    ensures Inv(Goto(sys, p, DeletePv(name, sys.pvs[name])))
  {
    var job := DeletePv(name, sys.pvs[name]);
    forall q | q != p ensures Apart(job, JobOf(sys, q)) {
      assert JobSound(sys, JobOf(sys, q));
    }
    assert sys.pvs[name].Some? ==> RefersTo(sys.pvs[name], VolumeName2VolumeId(sys.pvs[name].value));
    TurnKeeps(sys, p, job);
  }

  lemma {:induction false} DropCondemned(sys: System, p: nat, id: string, answer: Answer)
    requires Inv(sys) && (JobOf(sys, p) == UndoVol(id) || JobOf(sys, p) == DeleteVol(id))
    ensures Inv(Goto(if answer == Bad then sys else sys.(vols := sys.vols - {id}), p, Over))
  {
    if answer == Bad {
      RetireKeeps(sys, p, Over);
    } else {
      assert JobSound(sys, JobOf(sys, p));
      forall q ensures JobOf(sys, q).PostPv? ==> JobOf(sys, q).id != id {
        assert q != p ==> Apart(JobOf(sys, q), JobOf(sys, p));
      }
      DropVolumeKeeps(sys, id);
      RetireKeeps(sys.(vols := sys.vols - {id}), p, Over);
    }
  }

  lemma {:induction false} DeletePvKeeps(sys: System, p: nat, name: string, path: Path, answer: Answer)
    requires Inv(sys) && JobOf(sys, p) == DeletePv(name, path) && name in sys.pvs
    ensures Inv(Goto(sys.(pvs := sys.pvs - {name}), p,
                     if answer == Lost || path.None? then Over else DeleteVol(VolumeName2VolumeId(path.value))))
  {
    var mid := sys.(pvs := sys.pvs - {name});
    DropPvKeeps(sys, name);
    if answer == Lost || path.None? {
      RetireKeeps(mid, p, Over);
    } else {
      var id := VolumeName2VolumeId(path.value);
      assert JobSound(sys, JobOf(sys, p)) && InHand(JobOf(sys, p)) == Some(id);
      assert NoPvOf(mid, id);
      forall q | q != p ensures Apart(DeleteVol(id), JobOf(mid, q)) {
        assert JobOf(mid, q) == JobOf(sys, q) && Apart(JobOf(sys, p), JobOf(sys, q));
      }
      TurnKeeps(mid, p, DeleteVol(id));
    }
  }

  lemma {:induction false} RunKeeps(sys: System, es: seq<Event>)
    requires Inv(sys) && NoLostPost(sys, es)
    ensures Inv(Run(sys, es))
    decreases es
  {
    if es != [] {
      match es[0] {
        case SpawnCreate(p, namespace, claim) =>
          RetireKeeps(sys, p, CreateVol(PvcName2PvName(namespace, claim)));
        case SpawnDelete(p, namespace, claim) =>
          RetireKeeps(sys, p, GetPv(PvcName2PvName(namespace, claim)));
        case Act(p, answer, newId) =>
          CallKeeps(sys, p, answer, newId);
      }
      RunKeeps(Next(sys, es[0]), es[1..]);
    }
  }

  ghost predicate InvThroughout(sys: System, es: seq<Event>)
    decreases es
  {
    Inv(sys) && (es == [] || InvThroughout(Next(sys, es[0]), es[1..]))
  }

  /** In every interleaving the invariant holds throughout exactly when no post is lost. */
  lemma {:induction false} RunKeepsIff(sys: System, es: seq<Event>)
    requires Inv(sys)
    ensures InvThroughout(sys, es) <==> NoLostPost(sys, es)
    decreases es
  {
    if es != [] {
      match es[0] {
        case SpawnCreate(p, namespace, claim) =>
          RetireKeeps(sys, p, CreateVol(PvcName2PvName(namespace, claim)));
        case SpawnDelete(p, namespace, claim) =>
          RetireKeeps(sys, p, GetPv(PvcName2PvName(namespace, claim)));
        case Act(p, answer, newId) =>
          CallKeepsIff(sys, p, answer, newId);
      }
      if Inv(Next(sys, es[0])) {
        RunKeepsIff(Next(sys, es[0]), es[1..]);
      }
    }
  }

  /** Whatever goroutines run, in whatever order, each failing or stopping anywhere: every PV refers to an
      existing volume and no two share one, so long as no failed PV post stores the PV. */
  lemma {:induction false} NoDanglingEver(sys: System, es: seq<Event>)
    requires NoDangling(sys) && NoSharing(sys) && sys.vols <= sys.used && sys.jobs == map[]
    requires NoLostPost(sys, es)
    ensures NoDangling(Run(sys, es)) && NoSharing(Run(sys, es))
  {
    QuietInv(sys);
    RunKeeps(sys, es);
  }

  /** The assumption is needed: a stored post that reports an error is undone, and when the undoing takes
      effect the PV is left without its volume, and only then. */
  lemma {:induction false} LostPostDanglesIff(sys: System, p: nat, name: string, id: string, undo: Answer)
    requires Inv(sys) && JobOf(sys, p) == PostPv(name, id) && name !in sys.pvs
    ensures NoDangling(Run(sys, [Act(p, Lost, ""), Act(p, undo, "")])) <==> undo == Bad
  {
    IdRoundTrip(id);
    var es := [Act(p, Lost, ""), Act(p, undo, "")];
    var s1 := Next(sys, es[0]);
    var s2 := Next(s1, es[1]);
    assert es[1..][1..] == [] && es[1..][0] == es[1];
    assert Run(s1, es[1..]) == Run(s2, es[1..][1..]) == s2;
    assert JobSound(sys, JobOf(sys, p));
    assert name in s2.pvs && VolumeName2VolumeId(s2.pvs[name].value) == id;
  }
}
