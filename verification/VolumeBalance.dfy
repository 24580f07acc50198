/** What a finished create and a finished delete leave behind, alone and among other goroutines. */
module VolumeBalance {
  import opened Volumes
  import opened Wrappers
  import opened VolumeSafety

  // ----- the goroutines as they run -----

  /** The two outside stores. */
  class Cluster {
    var vols: set<string>
    var pvs: map<string, Path>
    var used: set<string>

    constructor (vols: set<string>, pvs: map<string, Path>, used: set<string>)
      ensures this.vols == vols && this.pvs == pvs && this.used == used
    {
      this.vols, this.pvs, this.used := vols, pvs, used;
    }

    /** The stores with the goroutines given. */
    function With(jobs: map<nat, Job>): System
      reads this
    {
      System(vols, pvs, used, jobs)
    }

    method VolumeCreate(answer: Answer, newId: string) returns (ok: bool)
      requires newId !in used
      modifies this`vols, this`used
      ensures ok <==> answer == Good
      ensures if answer == Bad then vols == old(vols) && used == old(used)
              else vols == old(vols) + {newId} && used == old(used) + {newId}
    {
      if answer != Bad {
        vols, used := vols + {newId}, used + {newId};
      }
      ok := answer == Good;
    }

    method VolumeDelete(answer: Answer, id: string) returns (ok: bool)
      modifies this`vols
      ensures ok <==> answer == Good
      ensures vols == if answer == Bad then old(vols) else old(vols) - {id}
    {
      if answer != Bad {
        vols := vols - {id};
      }
      ok := answer == Good;
    }

    method PostPv(answer: Answer, name: string, path: Path) returns (ok: bool)
      modifies this`pvs
      ensures ok <==> answer == Good && name !in old(pvs)
      ensures pvs == if answer == Bad || name in old(pvs) then old(pvs) else old(pvs)[name := path]
    {
      if answer == Bad || name in pvs {
        return false;
      }
      pvs := pvs[name := path];
      ok := answer == Good;
    }

    method DeletePv(answer: Answer, name: string) returns (ok: bool)
      modifies this`pvs
      ensures ok <==> answer == Good && name in old(pvs)
      ensures pvs == if answer == Bad then old(pvs) else old(pvs) - {name}
    {
      if answer == Bad || name !in pvs {
        return false;
      }
      pvs := pvs - {name};
      ok := answer == Good;
    }
  }

  datatype CreateAnswers = CreateAnswers(id: string, create: Answer, post: Answer, undo: Answer)

  function CreateEvents(p: nat, a: CreateAnswers): seq<Event> {
    [Act(p, a.create, a.id), Act(p, a.post, a.id), Act(p, a.undo, a.id)]
  }

  /** The goroutine of CreateVolume. The deferred calls run at the end and look at `succeeded`; the one
      for the PV is registered only right before `succeeded` is set and so never deletes anything. */
  method CreateGoroutine(cl: Cluster, p: nat, namespace: string, claim: string, a: CreateAnswers)
    returns (succeeded: bool)
    requires a.id !in cl.used
    modifies cl
    ensures cl.With(map[p := Over])
         == Run(old(cl.With(map[p := CreateVol(PvcName2PvName(namespace, claim))])), CreateEvents(p, a))
    ensures succeeded <==>
      a.create == Good && a.post == Good && PvcName2PvName(namespace, claim) !in old(cl.pvs)
    ensures succeeded ==> cl.pvs == old(cl.pvs)[PvcName2PvName(namespace, claim) := Some("vol_" + a.id)]
  {
    var name := PvcName2PvName(namespace, claim);
    ghost var start := cl.With(map[p := CreateVol(name)]);
    RunThree(start, CreateEvents(p, a)[0], CreateEvents(p, a)[1], CreateEvents(p, a)[2]);
    succeeded := false;
    var made := cl.VolumeCreate(a.create, a.id);
    if made {
      var posted := cl.PostPv(a.post, name, Some(VolumeId2VolumeName(a.id)));
      if posted {
        succeeded := true;
      }
      if !succeeded {
        var undone := cl.VolumeDelete(a.undo, a.id);
      }
    }
    ghost var s1 := Next(start, CreateEvents(p, a)[0]);
    ghost var s2 := Next(s1, CreateEvents(p, a)[1]);
    assert forall j: Job, k: Job :: map[p := j][p := k] == map[p := k];
  }

  datatype DeleteAnswers = DeleteAnswers(read: Answer, pv: Answer, vol: Answer)

  function DeleteEvents(q: nat, a: DeleteAnswers): seq<Event> {
    [Act(q, a.read, ""), Act(q, a.pv, ""), Act(q, a.vol, "")]
  }

  /** The goroutine of DeleteVolume. */
  method DeleteGoroutine(cl: Cluster, q: nat, namespace: string, claim: string, a: DeleteAnswers)
    modifies cl
    ensures cl.With(map[q := Over])
         == Run(old(cl.With(map[q := GetPv(PvcName2PvName(namespace, claim))])), DeleteEvents(q, a))
  {
    var name := PvcName2PvName(namespace, claim);
    ghost var start := cl.With(map[q := GetPv(name)]);
    RunThree(start, DeleteEvents(q, a)[0], DeleteEvents(q, a)[1], DeleteEvents(q, a)[2]);
    assert forall j: Job, k: Job :: map[q := j][q := k] == map[q := k];
    if a.read != Good || name !in cl.pvs {
      return;
    }
    var path := cl.pvs[name];
    var deleted := cl.DeletePv(a.pv, name);
    if !deleted {
      return;
    }
    if path.Some? {
      var volId := VolumeName2VolumeId(path.value);
      var gone := cl.VolumeDelete(a.vol, volId);
    }
  }

  lemma {:induction false} RunThree(sys: System, e1: Event, e2: Event, e3: Event)
    ensures Run(sys, [e1, e2, e3]) == Next(Next(Next(sys, e1), e2), e3)
  {
    var es := [e1, e2, e3];
    assert es[1..] == [e2, e3] && [e2, e3][1..] == [e3] && [e3][1..] == [];
    assert Run(sys, es) == Run(Next(sys, e1), [e2, e3]) == Run(Next(Next(sys, e1), e2), [e3]);
    assert Run(Next(Next(sys, e1), e2), [e3]) == Run(Next(Next(Next(sys, e1), e2), e3), []);
  }

  /** A create that finishes with working compensation, and no answer lost, leaves a new volume with its
      PV exactly when both calls went well on a free name, and otherwise nothing. */
  lemma {:induction false} CreateLeavesBothOrNeither(vols: set<string>, pvs: map<string, Path>, used: set<string>,
                                                     p: nat, name: string, a: CreateAnswers)
    requires vols <= used && a.id !in used
    requires a.create != Lost && a.post != Lost && a.undo != Bad
    ensures var t := Run(System(vols, pvs, used, map[p := CreateVol(name)]), CreateEvents(p, a));
      && JobOf(t, p) == Over
      && if a.create == Good && a.post == Good && name !in pvs
         then t.vols == vols + {a.id} && t.pvs == pvs[name := Some("vol_" + a.id)]
         else t.vols == vols && t.pvs == pvs
  {
    var es := CreateEvents(p, a);
    RunThree(System(vols, pvs, used, map[p := CreateVol(name)]), es[0], es[1], es[2]);
    assert vols + {a.id} - {a.id} == vols;
  }

  /** The same for all answers: what a create that runs alone leaves in each store. */
  lemma {:induction false} CreateAlone(vols: set<string>, pvs: map<string, Path>, used: set<string>, p: nat,
                                       name: string, a: CreateAnswers)
    requires vols <= used && a.id !in used
    ensures var t := Run(System(vols, pvs, used, map[p := CreateVol(name)]), CreateEvents(p, a));
      var posts := a.create == Good && a.post != Bad && name !in pvs;
      var undoes := a.create == Good && !(a.post == Good && name !in pvs) && a.undo != Bad;
      && JobOf(t, p) == Over
      && t.pvs == (if posts then pvs[name := Some("vol_" + a.id)] else pvs)
      && t.vols == (if a.create != Bad && !undoes then vols + {a.id} else vols)
      && t.used == (if a.create == Bad then used else used + {a.id})
  {
    var es := CreateEvents(p, a);
    RunThree(System(vols, pvs, used, map[p := CreateVol(name)]), es[0], es[1], es[2]);
    PathOfId(a.id);
    assert vols + {a.id} - {a.id} == vols;
  }

  /** And a delete that runs alone: the PV goes once it is read, the volume it refers to only after that went
      well; a PV of another kind has no volume to delete. */
  lemma {:induction false} DeleteAlone(vols: set<string>, pvs: map<string, Path>, used: set<string>, q: nat,
                                       name: string, a: DeleteAnswers)
    ensures var t := Run(System(vols, pvs, used, map[q := GetPv(name)]), DeleteEvents(q, a));
      var found := a.read == Good && name in pvs;
      && JobOf(t, q) == Over && t.used == used
      && t.pvs == (if found && a.pv != Bad then pvs - {name} else pvs)
      && (if found && a.pv == Good && a.vol != Bad && pvs[name].Some?
          then t.vols == vols - {VolumeName2VolumeId(pvs[name].value)} else t.vols == vols)
  {
    var es := DeleteEvents(q, a);
    RunThree(System(vols, pvs, used, map[q := GetPv(name)]), es[0], es[1], es[2]);
  }

  /** When the PV has been deleted by another goroutine after it was read, the delete ends and touches nothing. */
  lemma {:induction false} MissingPvEnds(sys: System, q: nat, name: string, path: Path, answer: Answer, newId: string)
    requires JobOf(sys, q) == DeletePv(name, path) && name !in sys.pvs
    ensures Call(sys, q, answer, newId) == Goto(sys, q, Over)
  {
  }

  /** When the name has been taken by another goroutine, the create turns to its compensation. */
  lemma {:induction false} TakenNameUndoes(sys: System, p: nat, name: string, id: string, answer: Answer, newId: string)
    requires JobOf(sys, p) == PostPv(name, id) && name in sys.pvs
    ensures Call(sys, p, answer, newId) == Goto(sys, p, UndoVol(id))
  {
  }

  // ----- a create and a delete among others -----

  function NameOf(job: Job): Option<string> {
    match job
    case CreateVol(name) => Some(name)
    case PostPv(name, _) => Some(name)
    case GetPv(name) => Some(name)
    case DeletePv(name, _) => Some(name)
    case _ => None
  }

  ghost predicate Avoids(sys: System, name: string) {
    forall r :: NameOf(JobOf(sys, r)) != Some(name)
  }

  /** The pair: `p` creates under `name` and gets the id `id`, `q` deletes under `name`. */
  datatype Pair = Pair(p: nat, q: nat, name: string, id: string)

  predicate OfPair(e: Event, x: Pair) {
    e.p == x.p || e.p == x.q
  }

  /** Nobody else works on the pair's name or is given its id. */
  predicate Allowed(e: Event, x: Pair) {
    match e
    case SpawnCreate(r, namespace, claim) => OfPair(e, x) || PvcName2PvName(namespace, claim) != x.name
    case SpawnDelete(r, namespace, claim) => OfPair(e, x) || PvcName2PvName(namespace, claim) != x.name
    case Act(r, _, newId) => if r == x.p then newId == x.id else r == x.q || newId != x.id
  }

  predicate AllAllowed(es: seq<Event>, x: Pair) {
    forall i :: 0 <= i < |es| ==> Allowed(es[i], x)
  }

  function Others(es: seq<Event>, x: Pair): seq<Event> {
    if es == [] then []
    else (if OfPair(es[0], x) then [] else [es[0]]) + Others(es[1..], x)
  }

  function WithoutPair(sys: System, x: Pair): System {
    System(sys.vols - {x.id}, sys.pvs - {x.name}, sys.used - {x.id}, sys.jobs - {x.p, x.q})
  }

  predicate PairSound(sys: System, x: Pair) {
    && x.p != x.q && x.p in sys.jobs && x.q in sys.jobs
    && sys.jobs[x.p] in {CreateVol(x.name), PostPv(x.name, x.id), UndoVol(x.id), Over}
    && sys.jobs[x.q] in {GetPv(x.name), DeletePv(x.name, Some(VolumeId2VolumeName(x.id))), DeleteVol(x.id), Over}
    && (x.name in sys.pvs ==> sys.pvs[x.name] == Some(VolumeId2VolumeName(x.id)))
  }

  /** The system without the pair is sound on its own and knows nothing of it. */
  ghost predicate Bystander(t: System, x: Pair) {
    Inv(t) && x.id !in t.used && Avoids(t, x.name)
  }

  lemma {:induction false} PairStep(s: System, e: Event, x: Pair)
    requires PairSound(s, x)
    requires Allowed(e, x) && OfPair(e, x) && !LostPost(s, e)
    ensures PairSound(Next(s, e), x) && WithoutPair(Next(s, e), x) == WithoutPair(s, x)
  {
    IdRoundTrip(x.id);
    var u := Next(s, e);
    assert u.vols - {x.id} == s.vols - {x.id};
    assert u.used - {x.id} == s.used - {x.id};
    assert u.pvs - {x.name} == s.pvs - {x.name};
    assert u.jobs - {x.p, x.q} == s.jobs - {x.p, x.q};
  }

  lemma {:induction false} OtherStep(s: System, e: Event, x: Pair)
    requires PairSound(s, x) && Bystander(WithoutPair(s, x), x)
    requires Allowed(e, x) && !OfPair(e, x) && !LostPost(s, e)
    ensures PairSound(Next(s, e), x)
    ensures WithoutPair(Next(s, e), x) == Next(WithoutPair(s, x), e)
    ensures Bystander(Next(WithoutPair(s, x), e), x)
  {
    var t := WithoutPair(s, x);
    assert JobOf(t, e.p) == JobOf(s, e.p);
    OtherStepCommutes(s, e, x);
    var single := [e];
    assert single[1..] == [];
    assert NoLostPost(t, single);
    RunKeeps(t, single);
    assert Run(t, single) == Run(Next(t, e), []) == Next(t, e);
    OtherStepAvoids(t, e, x);
  }

  lemma {:induction false} OtherStepAvoids(t: System, e: Event, x: Pair)
    requires Bystander(t, x) && Allowed(e, x) && !OfPair(e, x)
    ensures x.id !in Next(t, e).used && Avoids(Next(t, e), x.name)
  {
    var u := Next(t, e);
    assert NameOf(JobOf(t, e.p)) != Some(x.name);
    forall r ensures NameOf(JobOf(u, r)) != Some(x.name) {
      assert r != e.p ==> JobOf(u, r) == JobOf(t, r);
    }
  }

  lemma {:induction false} OtherStepCommutes(s: System, e: Event, x: Pair)
    requires PairSound(s, x) && Bystander(WithoutPair(s, x), x)
    requires Allowed(e, x) && !OfPair(e, x)
    ensures PairSound(Next(s, e), x)
    ensures WithoutPair(Next(s, e), x) == Next(WithoutPair(s, x), e)
  {
    var t := WithoutPair(s, x);
    match e
    case Act(r, answer, newId) =>
      assert JobOf(t, r) == JobOf(s, r);
      assert NameOf(JobOf(t, r)) != Some(x.name) && InHand(JobOf(t, r)) != Some(x.id);
      CallCommutes(s, r, answer, newId, x);
      CallKeepsPair(s, r, answer, newId, x);
    case _ =>
      assert Next(s, e).jobs - {x.p, x.q} == Next(t, e).jobs;
  }

  lemma {:induction false} CallKeepsPair(s: System, r: nat, answer: Answer, newId: string, x: Pair)
    requires PairSound(s, x) && r != x.p && r != x.q
    requires NameOf(JobOf(s, r)) != Some(x.name)
    ensures PairSound(Call(s, r, answer, newId), x)
  {
  }

  lemma {:induction false} GotoCommutes(s: System, r: nat, job: Job, x: Pair)
    requires r != x.p && r != x.q
    ensures WithoutPair(Goto(s, r, job), x) == Goto(WithoutPair(s, x), r, job)
  {
    assert s.jobs[r := job] - {x.p, x.q} == (s.jobs - {x.p, x.q})[r := job];
  }

  lemma {:induction false} CallCommutes(s: System, r: nat, answer: Answer, newId: string, x: Pair)
    requires r != x.p && r != x.q && newId != x.id
    requires NameOf(JobOf(s, r)) != Some(x.name) && InHand(JobOf(s, r)) != Some(x.id)
    ensures WithoutPair(Call(s, r, answer, newId), x) == Call(WithoutPair(s, x), r, answer, newId)
  {
    var t := WithoutPair(s, x);
    var job, next := JobOf(s, r), JobOf(Call(s, r, answer, newId), r);
    assert job == JobOf(t, r);
    match job
    case CreateVol(name) =>
      if answer != Bad && newId !in s.used {
        var made := s.(vols := s.vols + {newId}, used := s.used + {newId});
        assert made.vols - {x.id} == t.vols + {newId} && made.used - {x.id} == t.used + {newId};
        GotoCommutes(made, r, next, x);
      } else {
        GotoCommutes(s, r, next, x);
      }
    case PostPv(name, id) =>
      if answer != Bad && name !in s.pvs {
        var path := Some(VolumeId2VolumeName(id));
        var posted := s.(pvs := s.pvs[name := path]);
        assert posted.pvs - {x.name} == t.pvs[name := path];
        GotoCommutes(posted, r, next, x);
      } else {
        GotoCommutes(s, r, next, x);
      }
    case UndoVol(id) => DropCommutes(s, r, answer, id, x);
    case DeleteVol(id) => DropCommutes(s, r, answer, id, x);
    case GetPv(name) => GotoCommutes(s, r, next, x);
    case DeletePv(name, path) =>
      if answer != Bad && name in s.pvs {
        var dropped := s.(pvs := s.pvs - {name});
        assert dropped.pvs - {x.name} == t.pvs - {name};
        GotoCommutes(dropped, r, next, x);
      } else {
        GotoCommutes(s, r, next, x);
      }
    case Over =>
  }

  lemma {:induction false} DropCommutes(s: System, r: nat, answer: Answer, id: string, x: Pair)
    requires r != x.p && r != x.q && id != x.id
    ensures WithoutPair(Goto(if answer == Bad then s else s.(vols := s.vols - {id}), r, Over), x)
         == Goto(if answer == Bad then WithoutPair(s, x)
                 else WithoutPair(s, x).(vols := WithoutPair(s, x).vols - {id}), r, Over)
  {
    var dropped := s.(vols := s.vols - {id});
    assert dropped.vols - {x.id} == WithoutPair(s, x).vols - {id};
    GotoCommutes(if answer == Bad then s else dropped, r, Over, x);
  }

  lemma {:induction false} PairErases(s: System, es: seq<Event>, x: Pair)
    requires PairSound(s, x) && Bystander(WithoutPair(s, x), x)
    requires AllAllowed(es, x) && NoLostPost(s, es)
    ensures PairSound(Run(s, es), x)
    ensures WithoutPair(Run(s, es), x) == Run(WithoutPair(s, x), Others(es, x))
    ensures Bystander(WithoutPair(Run(s, es), x), x)
    decreases es
  {
    if es != [] {
      var e, rest := es[0], es[1..];
      assert Allowed(e, x);
      if OfPair(e, x) {
        PairStep(s, e, x);
        PairErases(Next(s, e), rest, x);
        assert Others(es, x) == Others(rest, x);
      } else {
        OtherStep(s, e, x);
        PairErases(Next(s, e), rest, x);
        assert Others(es, x) == [e] + Others(rest, x);
        assert Others(es, x)[0] == e && Others(es, x)[1..] == Others(rest, x);
      }
    }
  }

  /** Both done, nothing of them left. */
  predicate Gone(s: System, x: Pair) {
    && x.id !in s.vols && x.name !in s.pvs
    && JobOf(s, x.p) == Over && JobOf(s, x.q) == Over
  }

  lemma {:induction false} GoneStays(s: System, es: seq<Event>, x: Pair)
    requires PairSound(s, x) && Bystander(WithoutPair(s, x), x) && Gone(s, x)
    requires AllAllowed(es, x) && NoLostPost(s, es)
    ensures Gone(Run(s, es), x)
    decreases es
  {
    if es != [] {
      var e := es[0];
      assert Allowed(e, x);
      if OfPair(e, x) {
        PairStep(s, e, x);
      } else {
        var t := WithoutPair(s, x);
        assert JobOf(t, e.p) == JobOf(s, e.p) && NameOf(JobOf(t, e.p)) != Some(x.name);
        OtherStep(s, e, x);
      }
      GoneStays(Next(s, e), es[1..], x);
    }
  }

  lemma {:induction false} NoLostPostSplit(s: System, a: seq<Event>, b: seq<Event>)
    ensures Run(s, a + b) == Run(Run(s, a), b)
    ensures NoLostPost(s, a + b) <==> NoLostPost(s, a) && NoLostPost(Run(s, a), b)
    decreases a
  {
    if a == [] {
      assert a + b == b;
    } else {
      assert (a + b)[0] == a[0] && (a + b)[1..] == a[1..] + b;
      NoLostPostSplit(Next(s, a[0]), a[1..], b);
    }
  }

  /** The start: both goroutines about to make their first call, the name free, the id unused, and nobody
      else at work on the name. */
  ghost predicate Fresh(s: System, x: Pair) {
    && Inv(s) && x.p != x.q && x.p in s.jobs && x.q in s.jobs
    && s.jobs[x.p] == CreateVol(x.name) && s.jobs[x.q] == GetPv(x.name)
    && x.name !in s.pvs && x.id !in s.used
    && forall r :: r != x.p && r != x.q ==> NameOf(JobOf(s, r)) != Some(x.name)
  }

  lemma {:induction false} FreshStart(s: System, x: Pair)
    requires Fresh(s, x)
    ensures PairSound(s, x) && Bystander(WithoutPair(s, x), x)
  {
    var t := WithoutPair(s, x);
    assert t.vols == s.vols && t.used == s.used && t.pvs == s.pvs;
    assert forall r :: JobOf(t, r) == if r == x.p || r == x.q then Over else JobOf(s, r);
    assert forall job :: JobSound(s, job) ==> JobSound(t, job);
    assert JobSound(t, Over);
  }

  /** The delete's last call, when it goes well, leaves nothing of the pair. */
  lemma {:induction false} LastCallClears(mid: System, x: Pair)
    requires Inv(mid) && PairSound(mid, x) && Bystander(WithoutPair(mid, x), x)
    requires JobOf(mid, x.p) == Over && JobOf(mid, x.q) == DeleteVol(x.id)
    ensures Gone(Next(mid, Act(x.q, Good, "")), x)
  {
    assert JobSound(mid, JobOf(mid, x.q));
    IdRoundTrip(x.id);
  }

  /** A create under a free name that finishes, and a delete of that name whose last call goes well, with
      any other goroutines in between that keep off the name: both stores end exactly as they do in the
      run without the two. */
  lemma {:induction false} CreateThenDeleteRestores(s: System, a: seq<Event>, b: seq<Event>, x: Pair)
    requires Fresh(s, x)
    requires var last := Act(x.q, Good, ""); AllAllowed(a + ([last] + b), x) && NoLostPost(s, a + ([last] + b))
    requires JobOf(Run(s, a), x.p) == Over && JobOf(Run(s, a), x.q) == DeleteVol(x.id)
    ensures var es := a + ([Act(x.q, Good, "")] + b);
      var whole, others := Run(s, es), Run(WithoutPair(s, x), Others(es, x));
      whole.vols == others.vols && whole.pvs == others.pvs
  {
    var last := Act(x.q, Good, "");
    var tail := [last] + b;
    var es := a + tail;
    FreshStart(s, x);
    NoLostPostSplit(s, a, tail);
    var mid := Run(s, a);
    assert forall i :: 0 <= i < |a| ==> es[i] == a[i];
    assert forall i :: 0 <= i < |b| ==> es[|a| + 1 + i] == b[i];
    PairErases(s, a, x);
    RunKeeps(s, a);
    LastCallClears(mid, x);
    assert tail[0] == last && tail[1..] == b;
    PairStep(mid, last, x);
    GoneStays(Next(mid, last), b, x);
    assert Run(s, es) == Run(mid, tail) == Run(Next(mid, last), b);
    PairErases(s, es, x);
    assert Run(s, es).vols - {x.id} == Run(s, es).vols;
    assert Run(s, es).pvs - {x.name} == Run(s, es).pvs;
  }
}
