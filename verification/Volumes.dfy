/** The goroutines of volume.go that create and delete volumes, on two outside stores: heketi volumes and
    persistent volumes (PVs). */
module Volumes {
  import opened Wrappers

  // ----- names -----

  const VOLUME_PREFIX := "vol_"

  function PvcName2PvName(namespace: string, volName: string): string {
    namespace + "-" + volName
  }

  function VolumeId2VolumeName(volId: string): string {
    VOLUME_PREFIX + volId
  }

  predicate HasPrefix(s: string, prefix: string) {
    |prefix| <= |s| && s[..|prefix|] == prefix
  }

  function VolumeName2VolumeId(volName: string): string {
    if HasPrefix(volName, VOLUME_PREFIX) then volName[|VOLUME_PREFIX|..] else volName
  }

  /** What a path is: "vol_" and the id, byte for byte. */
  lemma {:induction false} PathOfId(volId: string)
    ensures var path := VolumeId2VolumeName(volId);
      |path| == |volId| + 4 && path[..4] == "vol_" && path[4..] == volId
  {
  }

  /** And the id of a path: what follows "vol_", or the path itself if it does not start so. */
  lemma {:induction false} IdOfPath(path: string)
    ensures var id := VolumeName2VolumeId(path);
      if |path| >= 4 && path[..4] == "vol_" then id == path[4..] else id == path
  {
  }

  /** A PV is named by its namespace, a dash and its claim. */
  lemma {:induction false} NameOfPv(namespace: string, claim: string)
    ensures var name := PvcName2PvName(namespace, claim);
      && |name| == |namespace| + 1 + |claim|
      && name[..|namespace|] == namespace && name[|namespace|] == '-' && name[|namespace| + 1..] == claim
  {
  }

  lemma {:induction false} IdRoundTrip(volId: string)
    ensures VolumeName2VolumeId(VolumeId2VolumeName(volId)) == volId
  {
    var name := VolumeId2VolumeName(volId);
    assert name[..|VOLUME_PREFIX|] == VOLUME_PREFIX && name[|VOLUME_PREFIX|..] == volId;
  }

  lemma {:induction false} NameRoundTripIff(volName: string)
    ensures VolumeId2VolumeName(VolumeName2VolumeId(volName)) == volName <==> HasPrefix(volName, VOLUME_PREFIX)
  {
    if HasPrefix(volName, VOLUME_PREFIX) {
      assert volName == volName[..|VOLUME_PREFIX|] + volName[|VOLUME_PREFIX|..];
    } else {
      assert |VolumeId2VolumeName(volName)| != |volName|;
    }
  }

  /** The longer namespace is the shorter one, a dash and the start of its claim. */
  predicate Overlaps(ns: string, claim: string, longNs: string, longClaim: string) {
    && |ns| < |longNs| && HasPrefix(longNs, ns + "-")
    && claim == longNs[|ns| + 1..] + "-" + longClaim
  }

  /** PV names are not unique across namespaces: exactly when two claims share one. */
  lemma {:induction false} PvNamesClashIff(n1: string, c1: string, n2: string, c2: string)
    ensures PvcName2PvName(n1, c1) == PvcName2PvName(n2, c2)
       <==> (n1 == n2 && c1 == c2) || Overlaps(n1, c1, n2, c2) || Overlaps(n2, c2, n1, c1)
  {
    if |n1| == |n2| {
      SameLength(n1, c1, n2, c2);
    } else if |n1| < |n2| {
      ShorterFirst(n1, c1, n2, c2);
    } else {
      ShorterFirst(n2, c2, n1, c1);
    }
  }

  lemma {:induction false} SameLength(n1: string, c1: string, n2: string, c2: string)
    requires |n1| == |n2|
    ensures PvcName2PvName(n1, c1) == PvcName2PvName(n2, c2) <==> n1 == n2 && c1 == c2
  {
    var a, b := PvcName2PvName(n1, c1), PvcName2PvName(n2, c2);
    assert a[..|n1|] == n1 && b[..|n2|] == n2 && a[|n1| + 1..] == c1 && b[|n2| + 1..] == c2;
  }

  lemma {:induction false} ShorterFirst(n1: string, c1: string, n2: string, c2: string)
    requires |n1| < |n2|
    ensures PvcName2PvName(n1, c1) == PvcName2PvName(n2, c2) <==> Overlaps(n1, c1, n2, c2)
  {
    var a, b := PvcName2PvName(n1, c1), PvcName2PvName(n2, c2);
    var head, mid := n2[..|n1| + 1], n2[|n1| + 1..];
    assert n2 == head + mid;
    assert b == head + (mid + "-" + c2);
    assert a == (n1 + "-") + c1;
    assert b[..|n1| + 1] == head && b[|n1| + 1..] == mid + "-" + c2;
    assert a[..|n1| + 1] == n1 + "-" && a[|n1| + 1..] == c1;
  }

  // ----- stores and goroutines -----

  /** A PV keeps the path of its gluster volume, if it has one. */
  type Path = Option<string>

  predicate RefersTo(path: Path, id: string) {
    path.Some? && VolumeName2VolumeId(path.value) == id
  }

  /** Where a goroutine stands, with what it has learnt so far. */
  datatype Job =
    | CreateVol(name: string)                 // about to create a volume
    | PostPv(name: string, id: string)        // volume made, about to post the PV
    | UndoVol(id: string)                     // post failed, about to delete the volume
    | GetPv(name: string)                     // about to read the PV
    | DeletePv(name: string, path: Path)      // about to delete the PV
    | DeleteVol(id: string)                   // PV gone, about to delete the volume
    | Over

  /** Answers of the outside; `Lost` takes effect but reports an error. */
  datatype Answer = Good | Bad | Lost

  /** `used` holds every volume id that has ever been given out. */
  datatype System = System(vols: set<string>, pvs: map<string, Path>, used: set<string>, jobs: map<nat, Job>)

  datatype Event =
    | SpawnCreate(p: nat, namespace: string, claim: string)
    | SpawnDelete(p: nat, namespace: string, claim: string)
    | Act(p: nat, answer: Answer, newId: string)

  function JobOf(sys: System, p: nat): Job {
    if p in sys.jobs then sys.jobs[p] else Over
  }

  function Goto(sys: System, p: nat, job: Job): System {
    sys.(jobs := sys.jobs[p := job])
  }

  /** One call of goroutine `p`. A new volume needs an unused id, a new PV an unused name. */
  function Call(sys: System, p: nat, answer: Answer, newId: string): System {
    match JobOf(sys, p)
    case CreateVol(name) =>
      if answer == Bad then Goto(sys, p, Over)
      else if newId in sys.used then sys
      else Goto(sys.(vols := sys.vols + {newId}, used := sys.used + {newId}), p,
                if answer == Good then PostPv(name, newId) else Over)
    case PostPv(name, id) =>
      if answer == Bad || name in sys.pvs then Goto(sys, p, UndoVol(id))
      else Goto(sys.(pvs := sys.pvs[name := Some(VolumeId2VolumeName(id))]), p,
                if answer == Good then Over else UndoVol(id))
    case UndoVol(id) =>
      Goto(if answer == Bad then sys else sys.(vols := sys.vols - {id}), p, Over)
    case GetPv(name) =>
      Goto(sys, p, if answer != Good || name !in sys.pvs then Over else DeletePv(name, sys.pvs[name]))
    case DeletePv(name, path) =>
      if answer == Bad || name !in sys.pvs then Goto(sys, p, Over)
      else Goto(sys.(pvs := sys.pvs - {name}), p,
                if answer == Lost || path.None? then Over else DeleteVol(VolumeName2VolumeId(path.value)))
    case DeleteVol(id) =>
      Goto(if answer == Bad then sys else sys.(vols := sys.vols - {id}), p, Over)
    case Over => sys
  }

  function Next(sys: System, e: Event): System {
    match e
    case SpawnCreate(p, namespace, claim) =>
      if p in sys.jobs then sys else Goto(sys, p, CreateVol(PvcName2PvName(namespace, claim)))
    case SpawnDelete(p, namespace, claim) =>
      if p in sys.jobs then sys else Goto(sys, p, GetPv(PvcName2PvName(namespace, claim)))
    case Act(p, answer, newId) => Call(sys, p, answer, newId)
  }

  function Run(sys: System, es: seq<Event>): System
    decreases es
  {
    if es == [] then sys else Run(Next(sys, es[0]), es[1..])
  }

  /** A post that is stored although it reports an error; under a name already taken nothing is stored. */
  predicate LostPost(sys: System, e: Event) {
    e.Act? && JobOf(sys, e.p).PostPv? && e.answer == Lost && JobOf(sys, e.p).name !in sys.pvs
  }

  predicate NoLostPost(sys: System, es: seq<Event>)
    decreases es
  {
    es == [] || (!LostPost(sys, es[0]) && NoLostPost(Next(sys, es[0]), es[1..]))
  }

  // ----- no dangling PV -----

  /** Every gluster PV refers to an existing volume. */
  ghost predicate NoDangling(sys: System) {
    forall name :: name in sys.pvs && sys.pvs[name].Some? ==> VolumeName2VolumeId(sys.pvs[name].value) in sys.vols
  }

  /** No two PVs share a volume. */
  ghost predicate NoSharing(sys: System) {
    forall n, m, id :: n in sys.pvs && m in sys.pvs && RefersTo(sys.pvs[n], id) && RefersTo(sys.pvs[m], id) ==> n == m
  }

  ghost predicate NoPvOf(sys: System, id: string) {
    forall name :: name in sys.pvs ==> !RefersTo(sys.pvs[name], id)
  }

  /** The volume a goroutine has in hand, if any. */
  function InHand(job: Job): Option<string> {
    match job
    case PostPv(_, id) => Some(id)
    case UndoVol(id) => Some(id)
    case DeleteVol(id) => Some(id)
    case DeletePv(_, path) => if path.Some? then Some(VolumeName2VolumeId(path.value)) else None
    case _ => None
  }

  ghost predicate IdsUsed(sys: System) {
    && sys.vols <= sys.used
    && (forall name, id :: name in sys.pvs && RefersTo(sys.pvs[name], id) ==> id in sys.used)
    && (forall p :: InHand(JobOf(sys, p)).Some? ==> InHand(JobOf(sys, p)).value in sys.used)
  }

  /** What a goroutine may count on, whatever the others do. */
  ghost predicate JobSound(sys: System, job: Job) {
    match job
    case PostPv(name, id) => id in sys.vols && NoPvOf(sys, id)
    case UndoVol(id) => NoPvOf(sys, id)
    case DeleteVol(id) => NoPvOf(sys, id)
    case DeletePv(name, path) =>
      forall n :: n in sys.pvs && path.Some? && RefersTo(sys.pvs[n], VolumeName2VolumeId(path.value)) ==> n == name
    case _ => true
  }

  /** A volume about to be posted is in nobody else's hand. */
  predicate Apart(a: Job, b: Job) {
    && (a.PostPv? ==> InHand(b) != Some(a.id))
    && (b.PostPv? ==> InHand(a) != Some(b.id))
  }

  ghost predicate JobsSound(sys: System) {
    && (forall p :: JobSound(sys, JobOf(sys, p)))
    && (forall p, q :: p != q ==> Apart(JobOf(sys, p), JobOf(sys, q)))
  }

  ghost predicate Inv(sys: System) {
    NoDangling(sys) && NoSharing(sys) && IdsUsed(sys) && JobsSound(sys)
  }

  /** Any state without goroutines whose PVs are in order is a start. */
  lemma {:induction false} QuietInv(sys: System)
    requires NoDangling(sys) && NoSharing(sys) && sys.vols <= sys.used && sys.jobs == map[]
    ensures Inv(sys)
  {
    forall name, id | name in sys.pvs && RefersTo(sys.pvs[name], id) ensures id in sys.used {
      assert VolumeName2VolumeId(sys.pvs[name].value) in sys.vols;
    }
  }
}
