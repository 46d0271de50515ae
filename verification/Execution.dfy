// Running everything that was enqueued on several pods, as a system of pod
// states and finish packets.
module Execution {
  import opened Bits
  import opened Coordinates
  import opened TileGroups
  import opened Resources
  import opened PodGeometry
  import EvaCopy
  import MM = MemoryManager

  /** The fields of a request packet that the host looks at. */
  datatype Packet = Packet(data: nat, src: Coord, epa: nat)

  const FINISH_SIGNAL_VAL: nat := 0xFACE

  /** What arrives at the host when a group ends: the source coordinate has
      eight bits per axis, and the signal address sixteen. */
  function FinishPacket(g: Group): Packet {
    Packet(FINISH_SIGNAL_VAL, Coord(g.origin.x % 256, g.origin.y % 256), g.finishEpa % 0x1_0000)
  }

  predicate Matches(g: Group, pkt: Packet) {
    g.status.Launched? && g.origin == pkt.src && pkt.epa == g.finishEpa
  }

  function PodIndex(cfg: Geometry, src: Coord): nat
    requires cfg.podShape.x > 0 && cfg.podShape.y > 0
  {
    ToIndex(PodOf(cfg, src), cfg.pods)
  }

  // ---------------------------------------------------------------- one pod

  /** A pod after initialization. */
  function NewPod(mesh: Mesh, region: MM.Region, tr: EvaCopy.Map, barrierUsed: bool, ruche: int): Pod {
    Pod(mesh, seq(mesh.dim.x * mesh.dim.y, _ => Tile(Free, mesh.origin, Coord(TWO32 - 1, TWO32 - 1))), [], [],
        region, MM.Initial(region), tr, barrierUsed, ruche)
  }

  // What holds of a pod in every state, also after a failed launch.
  ghost predicate Steady(p: Pod) {
    && Safe(p) && NoneEmpty(p) && Counted(p) && MM.Valid(p.region, p.mem) && Aligned(p.region.alignment, 4)
  }

  // A pod between two host steps: safe, accounted for, no launch has failed, and
  // every group has a signal address that fits its field.
  ghost predicate Ready(p: Pod, base: seq<MM.Block>) {
    && Safe(p) && NoneEmpty(p) && Accounted(p, base)
    && forall i :: 0 <= i < |p.groups| ==>
         !p.groups[i].status.Allocated? && p.groups[i].finishEpa < 0x1_0000
  }

  ghost predicate Done(p: Pod) {
    forall i :: 0 <= i < |p.groups| ==> p.groups[i].status.Finished?
  }

  ghost predicate Running(p: Pod) {
    exists i :: 0 <= i < |p.groups| && p.groups[i].status.Launched?
  }

  ghost function Pass0(p: Pod): Pod
    requires Shaped(p) && KernelsKnown(p)
  {
    Pass(p, 0, Coord(0, 0))
  }

  // Only groups that the mesh cannot hold are left.
  ghost predicate AtRest(p: Pod) {
    forall i :: 0 <= i < |p.groups| ==>
      p.groups[i].status.Finished? || (p.groups[i].status.Initialized? && !Fits(p.mesh, p.groups[i].dim))
  }

  lemma PassIsSteady(p: Pod)
    requires Steady(p)
    ensures Steady(Pass0(p)) && Advances(p, Pass0(p))
  {
    PassIsSafe(p, 0, Coord(0, 0));
    PassIsCounted(p, 0, Coord(0, 0));
  }

  // A pass launches only shapes that fit, so none that does not fit goes away.
  lemma AdvanceKeepsFit(p: Pod, q: Pod)
    requires Advances(p, q)
    ensures AllFit(q) ==> AllFit(p)
    ensures AllFit(p) ==> AllFit(q)
  {
    forall i | 0 <= i < |p.groups| && p.groups[i].status.Initialized? && !Fits(p.mesh, p.groups[i].dim)
      ensures q.groups[i] == p.groups[i]
    {
    }
  }

  lemma PassIsReady(p: Pod, base: seq<MM.Block>)
    requires Ready(p, base)
    ensures var q := Pass0(p);
      && (Stopped(q) || Ready(q, base)) && Remaining(q.groups) == Remaining(p.groups) && q.mesh == p.mesh
      && (Done(p) ==> q == p) && Advances(p, q) && (AllFit(p) <==> AllFit(q))
  {
    hide Safe, Accounted;
    SafeIsShaped(p);
    PassIsSafe(p, 0, Coord(0, 0));
    PassIsAccounted(p, base, 0, Coord(0, 0));
    AdvanceKeepsCounts(p.groups, Pass0(p).groups);
    AdvanceKeepsFit(p, Pass0(p));
    if Done(p) { NothingToLaunch(p, 0, Coord(0, 0)); }
  }

  lemma {:induction false} NothingToLaunch(p: Pod, i: nat, lastFailed: Coord)
    requires Shaped(p) && KernelsKnown(p) && Done(p)
    ensures Pass(p, i, lastFailed) == p
    decreases |p.groups| - i
  {
    if i < |p.groups| { NothingToLaunch(p, i + 1, lastFailed); }
  }

  // After a pass, a launch has failed, or something is running, or only groups
  // that do not fit are left: the host never waits in vain for a group that fits.
  lemma PassMakesProgress(p: Pod)
    requires Safe(p) && NoneEmpty(p)
    ensures Stopped(Pass0(p)) || Running(Pass0(p)) || AtRest(Pass0(p))
  {
    hide Safe, Placement;
    SafeIsShaped(p);
    var q := Pass0(p);
    PassIsSafe(p, 0, Coord(0, 0));
    SafeIsShaped(q);
    ShortcutIsSound(p, 0, Coord(0, 0));
    PassIsExhaustive(p, 0);
    if !Stopped(q) && !Running(q) {
      forall i | 0 <= i < |q.groups|
        ensures q.groups[i].status.Finished? || (q.groups[i].status.Initialized? && !Fits(q.mesh, q.groups[i].dim))
      {
        if q.groups[i].status.Initialized? && Fits(q.mesh, q.groups[i].dim) {
          IdleMeshHasRoom(q, q.groups[i].dim);
        }
      }
    }
  }

  // While nothing runs, the program may allocate and free device memory itself:
  // the pod stays ready, relative to whatever is live then.
  lemma IdleMemoryIsReady(p: Pod, base: seq<MM.Block>, mem: MM.State)
    requires Ready(p, base) && !Running(p) && MM.Valid(p.region, mem)
    ensures Ready(p.(mem := mem), mem.busy)
  {
    NothingIsBusy(p);
    var q := p.(mem := mem);
    assert Safe(q) && Accounted(q, mem.busy);
  }

  // Without running groups, no group has a place and no tile is taken.
  lemma NothingIsBusy(p: Pod)
    requires Safe(p) && !Running(p) && forall i :: 0 <= i < |p.groups| ==> !p.groups[i].status.Allocated?
    ensures forall i :: 0 <= i < |p.groups| ==> !p.groups[i].Active()
    ensures forall t :: 0 <= t < |p.tiles| ==> p.tiles[t].status.Free?
  {
    forall t | 0 <= t < |p.tiles| ensures HasOwner(p, t) || p.tiles[t].status.Free? { }
  }

  lemma RetireIsReady(p: Pod, base: seq<MM.Block>, i: nat)
    requires Ready(p, base) && i < |p.groups| && p.groups[i].status.Launched?
    ensures var q := Retire(p, i);
      && Ready(q, base) && Remaining(q.groups) == Remaining(p.groups) - 1 && q.mesh == p.mesh
      && (AllFit(p) <==> AllFit(q))
  {
    RetireIsSafe(p, i);
    RetireIsAccounted(p, base, i);
    RetireKeepsFit(p, i);
  }

  lemma RetireKeepsFit(p: Pod, i: nat)
    requires KernelsKnown(p) && i < |p.groups| && p.groups[i].status.Launched? && p.mesh.dim.y > 0
    ensures AllFit(Retire(p, i)) <==> AllFit(p)
  {
    var q := Retire(p, i);
    assert forall j :: 0 <= j < |p.groups| && p.groups[j].status.Initialized? ==> q.groups[j] == p.groups[j];
  }

  lemma RetireIsSteady(p: Pod, i: nat)
    requires Steady(p) && i < |p.groups| && p.groups[i].status.Launched?
    ensures Steady(Retire(p, i))
  {
    RetireIsSafe(p, i);
    RetireIsCounted(p, i);
    MM.FreeIsSound(p.region, p.mem, p.groups[i].argv);
    MM.FreeIsSound(p.region, MM.FreeResult(p.mem, p.groups[i].argv), p.groups[i].barcfg);
  }

  // ---------------------------------------------------------------- all pods

  // Pod number k has its mesh at the origin the geometry gives it.
  ghost predicate AtHome(cfg: Geometry, pods: seq<Pod>) {
    && Valid(cfg) && |pods| == NumPods(cfg)
    && forall k :: 0 <= k < |pods| ==>
         && pods[k].mesh.origin == VcoreOrigin(cfg, FromIndex(k, cfg.pods))
         && pods[k].mesh.dim.x <= cfg.podShape.x && pods[k].mesh.dim.y <= cfg.podShape.y
  }

  ghost predicate AllReady(pods: seq<Pod>, bases: seq<seq<MM.Block>>) {
    |bases| == |pods| && forall k :: 0 <= k < |pods| ==> Ready(pods[k], bases[k])
  }

  ghost function TotalRemaining(pods: seq<Pod>): nat {
    if pods == [] then 0 else Remaining(pods[0].groups) + TotalRemaining(pods[1..])
  }

  lemma {:induction false} UpdateTotal(pods: seq<Pod>, k: nat, q: Pod)
    requires k < |pods|
    ensures TotalRemaining(pods[k := q]) + Remaining(pods[k].groups) == TotalRemaining(pods) + Remaining(q.groups)
  {
    if k == 0 {
      assert pods[k := q][1..] == pods[1..];
    } else {
      UpdateTotal(pods[1..], k - 1, q);
      assert pods[k := q][1..] == pods[1..][k - 1 := q];
    }
  }

  // The source of a finish packet names its pod, and in that pod exactly one
  // launched group matches.
  lemma PacketFindsItsGroup(cfg: Geometry, pods: seq<Pod>, bases: seq<seq<MM.Block>>, k: nat, i: nat)
    requires AtHome(cfg, pods) && AllReady(pods, bases)
    requires k < |pods| && i < |pods[k].groups| && pods[k].groups[i].status.Launched?
    ensures var pkt := FinishPacket(pods[k].groups[i]);
      && PodIndex(cfg, pkt.src) == k && pkt.data == 0xFACE
      && forall j :: 0 <= j < |pods[k].groups| ==> (Matches(pods[k].groups[j], pkt) <==> j == i)
  {
    hide Accounted, NoneEmpty, PodIndex, IsPow2, PodGeometry.Valid, VcoreOrigin, FromIndex;
    var g := pods[k].groups[i];
    assert Ready(pods[k], bases[k]) && Seated(pods[k], g);
    OriginFindsItsPod(cfg, k, pods[k].mesh, g.origin);
    OneGroupPerOrigin(pods[k], i);
  }

  lemma OriginFindsItsPod(cfg: Geometry, k: nat, m: Mesh, co: Coord)
    requires Valid(cfg) && k < NumPods(cfg) && InRect(co, m.origin, m.dim)
    requires m.origin == VcoreOrigin(cfg, FromIndex(k, cfg.pods))
    requires m.dim.x <= cfg.podShape.x && m.dim.y <= cfg.podShape.y
    ensures co.x < 256 && co.y < 256 && PodIndex(cfg, co) == k
  {
    CoordRoundTrip(k, cfg.pods);
    CoordinatesAreSmall(cfg, FromIndex(k, cfg.pods));
    CoreBelongsToPod(cfg, FromIndex(k, cfg.pods), co);
  }

  lemma OneGroupPerOrigin(p: Pod, i: nat)
    requires Safe(p) && i < |p.groups| && p.groups[i].status.Launched?
    ensures forall j :: 0 <= j < |p.groups| && p.groups[j].status.Launched? && j != i ==>
      p.groups[j].origin != p.groups[i].origin
  {
    forall j | 0 <= j < |p.groups| && p.groups[j].status.Launched? && j != i
      ensures p.groups[j].origin != p.groups[i].origin
    {
      assert Seated(p, p.groups[j]) && Seated(p, p.groups[i]);
      if j < i {
        assert Apart(p.groups[j].origin, p.groups[j].dim, p.groups[i].origin, p.groups[i].dim);
      } else {
        assert Apart(p.groups[i].origin, p.groups[i].dim, p.groups[j].origin, p.groups[j].dim);
      }
    }
  }
}
