// Every state a pod can reach, whatever the host and the device do, and when a
// run can finish.
module Reachable {
  import opened Bits
  import opened Coordinates
  import opened TileGroups
  import opened Resources
  import opened Launching
  import opened Execution
  import opened Enqueue
  import EvaCopy
  import MM = MemoryManager

  /** What can happen to a pod: the host adds a grid of any shape, makes a launch
      pass, which may stop at a launch that fails, or allocates or frees device
      memory; the device ends a group. */
  datatype Event =
    | AddKernel(gridDim: Coord, dim: Coord, argv: seq<nat>)
    | LaunchPass
    | GroupEnds(i: nat)
    | HostMalloc(size: nat)
    | HostFree(addr: nat)

  ghost predicate Allowed(p: Pod, e: Event) {
    match e
    case AddKernel(gridDim, dim, argv) => gridDim.x >= 1 && gridDim.y >= 1 && dim.x >= 1 && dim.y >= 1
    case LaunchPass => true
    case GroupEnds(i) => i < |p.groups| && p.groups[i].status.Launched?
    case HostMalloc(size) => true
    case HostFree(addr) => true
  }

  ghost function Apply(p: Pod, e: Event): Pod
    requires Steady(p) && Allowed(p, e)
  {
    match e
    case AddKernel(gridDim, dim, argv) => EnqueueKernel(p, gridDim, dim, argv)
    case LaunchPass => Pass0(p)
    case GroupEnds(i) => Retire(p, i)
    case HostMalloc(size) => p.(mem := MM.PodMalloc(p.region, p.mem, size).0)
    case HostFree(addr) => p.(mem := MM.FreeResult(p.mem, addr))
  }

  // What any step keeps, and that groups which cannot move stay where they are.
  lemma StepIsSteady(p: Pod, e: Event)
    requires Steady(p) && Allowed(p, e)
    ensures var q := Apply(p, e); Steady(q) && q.mesh == p.mesh && Settled(p, q)
    ensures !e.AddKernel? ==> (AllFit(p) <==> AllFit(Apply(p, e)))
  {
    hide MM.Valid, MM.PodMalloc, MM.FreeResult, Safe, Counted, EnqueueKernel, Pass0;
    SafeIsShaped(p);
    match e
    case AddKernel(gridDim, dim, argv) => EnqueueIsSteady(p, gridDim, dim, argv);
    case LaunchPass =>
      PassIsSteady(p);
      AdvanceKeepsFit(p, Pass0(p));
    case GroupEnds(i) =>
      RetireIsSteady(p, i);
      RetireKeepsFit(p, i);
    case HostMalloc(size) =>
      MallocEffect(p.region, p.mem, size);
      NewMemoryIsSteady(p, MM.PodMalloc(p.region, p.mem, size).0);
    case HostFree(addr) =>
      MM.FreeIsSound(p.region, p.mem, addr);
      NewMemoryIsSteady(p, MM.FreeResult(p.mem, addr));
  }

  lemma NewMemoryIsSteady(p: Pod, mem: MM.State)
    requires Steady(p) && MM.Valid(p.region, mem)
    ensures Steady(p.(mem := mem)) && (AllFit(p) <==> AllFit(p.(mem := mem)))
  {
    hide MM.Valid;
    var q := p.(mem := mem);
    forall i | 0 <= i < |q.groups| && q.groups[i].Active() ensures Seated(q, q.groups[i]) {
      assert Seated(p, p.groups[i]);
    }
    forall t | 0 <= t < |q.tiles| && q.tiles[t].status.Busy? ensures HasOwner(q, t) {
      assert HasOwner(p, t);
    }
  }

  // Neither a waiting group that does not fit the mesh nor a group whose launch
  // failed ever changes.
  ghost predicate Stuck(p: Pod, j: nat) {
    && j < |p.groups|
    && (p.groups[j].status.Allocated? || (p.groups[j].status.Initialized? && !Fits(p.mesh, p.groups[j].dim)))
  }

  ghost predicate Settled(p: Pod, q: Pod) {
    forall j: nat :: Stuck(p, j) ==> Stuck(q, j) && q.groups[j] == p.groups[j]
  }

  /** q is reached from p by a sequence of events. */
  ghost predicate Reaches(p: Pod, es: seq<Event>, q: Pod)
    decreases |es|
  {
    if es == [] then p == q
    else Steady(p) && Allowed(p, es[0]) && Reaches(Apply(p, es[0]), es[1..], q)
  }

  lemma {:induction false} RunIsSteady(p: Pod, es: seq<Event>, q: Pod)
    requires Steady(p) && Reaches(p, es, q)
    ensures Steady(q) && q.mesh == p.mesh && Settled(p, q)
    ensures (forall e :: e in es ==> !e.AddKernel?) ==> (AllFit(p) <==> AllFit(q))
    decreases |es|
  {
    hide Steady, Allowed, Apply, AllFit;
    if es != [] {
      var r := Apply(p, es[0]);
      StepIsSteady(p, es[0]);
      RunIsSteady(r, es[1..], q);
      assert forall e :: e in es[1..] ==> e in es;
      SettledTransitively(p, r, q);
    }
  }

  lemma SettledTransitively(p: Pod, r: Pod, q: Pod)
    requires Settled(p, r) && Settled(r, q)
    ensures Settled(p, q)
  {
  }

  lemma NewPodIsSteady(mesh: Mesh, region: MM.Region, tr: EvaCopy.Map, barrierUsed: bool, ruche: int)
    requires mesh.dim.x >= 1 && mesh.dim.y >= 1 && Aligned(region.alignment, 4)
    ensures Steady(NewPod(mesh, region, tr, barrierUsed, ruche))
  {
    MM.InitialIsValid(region);
  }

  // Group i has a place, and tile t is in its rectangle.
  ghost predicate Covers(q: Pod, i: int, t: int) {
    && 0 <= t < |q.tiles| && 0 <= i < |q.groups| && q.mesh.dim.y > 0 && q.groups[i].Active()
    && InRect(Where(q.mesh, t), q.groups[i].origin, q.groups[i].dim)
  }

  // In every reachable state: rectangles of placed groups lie in the mesh and are
  // pairwise disjoint; a tile is busy exactly when it is in one of them, and then
  // records that group; kernels count their unfinished groups and are cleaned up
  // once, when the last one ends; and the memory manager's invariant holds.
  lemma ReachableIsSafe(mesh: Mesh, region: MM.Region, tr: EvaCopy.Map, barrierUsed: bool, ruche: int, es: seq<Event>, q: Pod)
    requires mesh.dim.x >= 1 && mesh.dim.y >= 1 && Aligned(region.alignment, 4)
    requires Reaches(NewPod(mesh, region, tr, barrierUsed, ruche), es, q)
    ensures |q.tiles| == q.mesh.dim.x * q.mesh.dim.y && MM.Valid(q.region, q.mem)
    ensures forall i :: 0 <= i < |q.groups| && q.groups[i].Active() ==>
      RectInMesh(q.mesh, q.groups[i].origin, q.groups[i].dim)
    ensures forall i, j :: 0 <= i < j < |q.groups| && q.groups[i].Active() && q.groups[j].Active() ==>
      Apart(q.groups[i].origin, q.groups[i].dim, q.groups[j].origin, q.groups[j].dim)
    ensures forall t, i :: Covers(q, i, t) ==> q.tiles[t] == Tile(Busy, q.groups[i].origin, q.groups[i].id)
    ensures forall t :: 0 <= t < |q.tiles| && q.tiles[t].status.Busy? ==> exists i :: Covers(q, i, t)
    ensures forall k :: 0 <= k < |q.kernels| ==> q.kernels[k].refcount == References(q.groups, k)
    ensures forall k :: 0 <= k < |q.kernels| ==> q.kernels[k].exits == if References(q.groups, k) == 0 then 1 else 0
  {
    NewPodIsSteady(mesh, region, tr, barrierUsed, ruche);
    RunIsSteady(NewPod(mesh, region, tr, barrierUsed, ruche), es, q);
    forall i | 0 <= i < |q.groups| && q.groups[i].Active() ensures Seated(q, q.groups[i]) { }
    forall t | 0 <= t < |q.tiles| && q.tiles[t].status.Busy? ensures exists i :: Covers(q, i, t) {
      assert HasOwner(q, t);
      var i :| 0 <= i < |q.groups| && q.groups[i].Active() && InRect(Where(q.mesh, t), q.groups[i].origin, q.groups[i].dim);
      assert Covers(q, i, t);
    }
  }

  // ---------------------------------------------------------------- arguments

  // A kernel never gets new groups, and keeps its arguments while it has any.
  lemma StepKeepsArguments(p: Pod, e: Event, k: nat)
    requires Steady(p) && Allowed(p, e) && k < |p.kernels|
    ensures var q := Apply(p, e);
      && k < |q.kernels| && References(q.groups, k) <= References(p.groups, k)
      && (References(q.groups, k) > 0 ==> q.kernels[k].argv == p.kernels[k].argv)
  {
    hide MM.Valid, MM.PodMalloc, MM.FreeResult, Safe, EnqueueKernel, Pass0;
    SafeIsShaped(p);
    StepIsSteady(p, e);
    match e
    case AddKernel(gridDim, dim, argv) => EnqueueIsSteady(p, gridDim, dim, argv);
    case LaunchPass => PassKeepsKernels(p);
    case GroupEnds(i) =>
    case HostMalloc(size) =>
    case HostFree(addr) =>
  }

  lemma PassKeepsKernels(p: Pod)
    requires Shaped(p) && KernelsKnown(p)
    ensures Pass0(p).kernels == p.kernels
  {
    PassKeepsSetup(p, 0, Coord(0, 0));
  }

  lemma {:induction false} KernelKeepsArguments(p: Pod, es: seq<Event>, q: Pod, k: nat)
    requires Steady(p) && Reaches(p, es, q) && k < |p.kernels|
    ensures k < |q.kernels| && References(q.groups, k) <= References(p.groups, k)
    ensures References(q.groups, k) > 0 ==> q.kernels[k].argv == p.kernels[k].argv
    decreases |es|
  {
    hide Steady, Allowed, Apply;
    if es != [] {
      StepIsSteady(p, es[0]);
      StepKeepsArguments(p, es[0], k);
      KernelKeepsArguments(Apply(p, es[0]), es[1..], q, k);
    }
  }

  // Until it has finished, a group keeps its kernel, shape, grid and signal address.
  ghost predicate SameTask(p: Pod, q: Pod, j: nat) {
    && j < |p.groups| <= |q.groups|
    && (q.groups[j].Unfinished() ==> var g, h := p.groups[j], q.groups[j];
          && g.Unfinished() && h.kernel == g.kernel && h.dim == g.dim
          && h.id == g.id && h.gridDim == g.gridDim && h.finishEpa == g.finishEpa)
  }

  lemma StepKeepsTask(p: Pod, e: Event, j: nat)
    requires Steady(p) && Allowed(p, e) && j < |p.groups|
    ensures SameTask(p, Apply(p, e), j)
  {
    hide MM.Valid, MM.PodMalloc, MM.FreeResult, Safe, EnqueueKernel, Pass0, Counted;
    SafeIsShaped(p);
    match e
    case AddKernel(gridDim, dim, argv) => EnqueueIsSteady(p, gridDim, dim, argv);
    case LaunchPass => PassIsSteady(p);
    case GroupEnds(i) =>
    case HostMalloc(size) =>
    case HostFree(addr) =>
  }

  lemma {:induction false} GroupKeepsTask(p: Pod, es: seq<Event>, q: Pod, j: nat)
    requires Steady(p) && Reaches(p, es, q) && j < |p.groups|
    ensures SameTask(p, q, j)
    decreases |es|
  {
    hide Steady, Allowed, Apply;
    if es != [] {
      StepIsSteady(p, es[0]);
      StepKeepsTask(p, es[0], j);
      GroupKeepsTask(Apply(p, es[0]), es[1..], q, j);
    }
  }

  // Whatever happens after a grid has been enqueued: each of its groups that has not
  // finished is still the one with its coordinate in the grid, and its kernel still
  // has the arguments of the call.
  lemma ArgumentsReachEveryGroup(p: Pod, gridDim: Coord, dim: Coord, argv: seq<nat>, es: seq<Event>, q: Pod, i: nat)
    requires Steady(p) && gridDim.x >= 1 && gridDim.y >= 1 && dim.x >= 1 && dim.y >= 1
    requires Reaches(EnqueueKernel(p, gridDim, dim, argv), es, q)
    requires i < |ScanFrom(Coord(0, 0), Coord(0, 0), gridDim)|
    ensures |p.groups| + i < |q.groups|
    ensures var id := ScanFrom(Coord(0, 0), Coord(0, 0), gridDim)[i]; var g := q.groups[|p.groups| + i];
      g.Unfinished() ==>
        && g.kernel == |p.kernels| < |q.kernels| && q.kernels[g.kernel].argv == argv
        && g.id == id && g.gridDim == gridDim && g.dim == dim
        && g.finishEpa == 0xF000 + 4 * (id.y * gridDim.x + id.x)
  {
    hide Steady, EnqueueKernel, Reaches;
    var r := EnqueueKernel(p, gridDim, dim, argv);
    EnqueueIsSteady(p, gridDim, dim, argv);
    var j := |p.groups| + i;
    GroupKeepsTask(r, es, q, j);
    KernelKeepsArguments(r, es, q, |p.kernels|);
    if q.groups[j].Unfinished() { ReferencesBounded(q.groups, j); }
  }

  // ---------------------------------------------------------------- finishing

  // A waiting group that does not fit the mesh waits forever: no sequence of
  // events launches it, and no state it is part of is finished. The same holds of
  // a group whose launch failed.
  lemma StuckForever(p: Pod, es: seq<Event>, q: Pod, j: nat)
    requires Steady(p) && Reaches(p, es, q) && Stuck(p, j)
    ensures j < |q.groups| && q.groups[j] == p.groups[j] && !Done(q)
  {
    RunIsSteady(p, es, q);
    assert Stuck(q, j);
  }

  // Exactly when a run finishes. After any events that add no groups, and one more
  // pass after which nothing is running, everything has finished if and only if
  // all groups fitted the mesh and no launch has failed.
  lemma RunFinishesExactly(p: Pod, es: seq<Event>, r: Pod)
    requires Steady(p) && Reaches(p, es, r) && forall e :: e in es ==> !e.AddKernel?
    requires Steady(r) && !Running(Pass0(r))
    ensures Done(Pass0(r)) <==> AllFit(p) && !Stopped(Pass0(r))
  {
    hide Steady, Reaches, Pass0, Safe;
    RunIsSteady(p, es, r);
    SteadyIsSafe(r);
    SafeIsShaped(r);
    var q := Pass0(r);
    PassIsSteady(r);
    PassMakesProgress(r);
    AdvanceKeepsFit(r, q);
    AdvanceKeepsSize(r, q);
  }

  lemma AdvanceKeepsSize(r: Pod, q: Pod)
    requires Advances(r, q)
    ensures q.mesh == r.mesh && |q.groups| == |r.groups|
  {
  }

  // With enough memory for all waiting groups at the start, no launch fails,
  // however passes and finishes follow each other.
  lemma {:induction false} EnoughNeverStops(p: Pod, es: seq<Event>, q: Pod)
    requires Steady(p) && Enough(p) && !Stopped(p) && Reaches(p, es, q)
    requires forall e :: e in es ==> e.LaunchPass? || e.GroupEnds?
    ensures Enough(q) && !Stopped(q)
    decreases |es|
  {
    hide Steady, Enough;
    if es != [] {
      var r := Apply(p, es[0]);
      StepIsSteady(p, es[0]);
      SteadyIsSafe(p);
      assert es[0] in es;
      if es[0].LaunchPass? {
        PassKeepsEnough(p, 0, Coord(0, 0));
      } else {
        SafeIsShaped(p);
        RetireKeepsEnough(p, es[0].i);
      }
      assert forall e :: e in es[1..] ==> e in es;
      EnoughNeverStops(r, es[1..], q);
    }
  }

  // ---------------------------------------------------------------- too large

  // A waiting or failed group needs a buffer that is larger than the pod's memory.
  ghost predicate TooLarge(p: Pod, j: nat) {
    && j < |p.groups| && p.groups[j].kernel < |p.kernels|
    && (p.groups[j].status.Initialized? || p.groups[j].status.Allocated?)
    && (ArgumentBytes(p, p.groups[j]) > p.region.size || (p.barrierUsed && BarrierBytes(p.groups[j].dim) > p.region.size))
  }

  // No hole is larger than the region.
  lemma NoHoleFor(r: MM.Region, s: MM.State, n: nat)
    requires MM.Valid(r, s) && n > r.size
    ensures !HoleFor(r, s, n)
  {
    hide MM.Valid, MM.RoundUp;
    MM.BlocksAreSeparate(r, s);
    MM.RoundUpIsLeast(n, r.alignment);
  }

  lemma TooLargeFails(p: Pod, j: nat)
    requires Usable(p) && TooLarge(p, j)
    ensures !Launch(p, j).groups[j].status.Launched?
  {
    hide MM.Valid, MM.PodMalloc, HoleFor, Launch;
    LaunchSucceedsExactly(p, j);
    var n, bar := ArgumentBytes(p, p.groups[j]), BarrierBytes(p.groups[j].dim);
    MallocEffect(p.region, p.mem, n);
    if n > p.region.size { NoHoleFor(p.region, p.mem, n); }
    if bar > p.region.size { NoHoleFor(p.region, AfterArguments(p, j), bar); }
  }

  lemma {:induction false} PassKeepsTooLarge(p: Pod, i: nat, lastFailed: Coord, j: nat)
    requires Safe(p) && NoneEmpty(p) && Usable(p) && TooLarge(p, j)
    ensures TooLarge(Pass(p, i, lastFailed), j) && Usable(Pass(p, i, lastFailed))
    decreases |p.groups| - i
  {
    hide Launch, Safe, Placement, Usable;
    SafeIsShaped(p);
    if i < |p.groups| {
      var g := p.groups[i];
      if !g.status.Initialized? || lastFailed == g.dim {
        PassKeepsTooLarge(p, i + 1, lastFailed, j);
      } else {
        match Placement(p, g.dim) {
          case None => PassKeepsTooLarge(p, i + 1, g.dim, j);
          case Some(o) =>
            LaunchStep(p, i, o);
            PlacedIsUsable(p, i, o);
            LaunchIsUsable(Place(p, i, o), i);
            LaunchChanges(Place(p, i, o), i);
            if i == j { TooLargeFails(Place(p, i, o), j); }
            var q := Launch(Place(p, i, o), i);
            if q.groups[i].status.Launched? { PassKeepsTooLarge(q, i + 1, lastFailed, j); }
        }
      }
    }
  }

  lemma RetireKeepsTooLarge(p: Pod, i: nat, j: nat)
    requires Shaped(p) && Counted(p) && TooLarge(p, j) && i < |p.groups| && p.groups[i].status.Launched?
    ensures TooLarge(Retire(p, i), j)
  {
    if p.groups[j].kernel == p.groups[i].kernel { TwoReferences(p.groups, i, j); }
  }

  lemma StepKeepsTooLarge(p: Pod, e: Event, j: nat)
    requires Steady(p) && Allowed(p, e) && Usable(p) && TooLarge(p, j)
    ensures TooLarge(Apply(p, e), j) && Usable(Apply(p, e))
  {
    hide MM.Valid, MM.PodMalloc, MM.FreeResult, Safe, Counted, EnqueueKernel, EvaCopy.Mapped;
    SafeIsShaped(p);
    StepIsSteady(p, e);
    match e
    case AddKernel(gridDim, dim, argv) => EnqueueKeepsOthers(p, gridDim, dim, argv);
    case LaunchPass => PassKeepsTooLarge(p, 0, Coord(0, 0), j);
    case GroupEnds(i) => RetireKeepsTooLarge(p, i, j);
    case HostMalloc(size) =>
    case HostFree(addr) =>
  }

  // A group that is larger than the pod's memory never runs, whatever happens.
  lemma {:induction false} TooLargeNeverFinishes(p: Pod, es: seq<Event>, q: Pod, j: nat)
    requires Steady(p) && Usable(p) && TooLarge(p, j) && Reaches(p, es, q)
    ensures TooLarge(q, j) && !Done(q)
    decreases |es|
  {
    hide Steady, Usable, Allowed, Apply;
    if es != [] {
      StepIsSteady(p, es[0]);
      StepKeepsTooLarge(p, es[0], j);
      TooLargeNeverFinishes(Apply(p, es[0]), es[1..], q, j);
    }
  }

  // ---------------------------------------------------------------- a witness

  // A run that cannot finish although its group fits: one tile, four bytes of
  // device memory, and a kernel with two arguments. The launch gets no buffer,
  // its copy fails, and the group keeps its tile for good.
  lemma ExhaustedPodStops(tr: EvaCopy.Map) returns (p: Pod)
    ensures Steady(p) && AllFit(p) && |p.groups| == 1 && p.groups[0].status.Initialized? && p.tr == tr
    ensures var q := Pass0(p);
      Stuck(q, 0) && q.groups[0].argv == 0xFFFF_FFFF && |q.tiles| == 1 && q.tiles[0].status.Busy?
  {
    hide MM.Valid, Steady, EnqueueKernel, Launch, Placement, Safe;
    FourByteRegion();
    var region: MM.Region := MM.RegionParams(0x8000_0000, 4, 4);
    var one := Coord(1, 1);
    var p0 := NewPod(Mesh(Coord(16, 8), one), region, tr, false, 3);
    NewPodIsSteady(p0.mesh, region, tr, false, 3);
    EnqueueIsSteady(p0, one, one, [7, 7]);
    p := EnqueueKernel(p0, one, one, [7, 7]);
    OneGroup(p0, one);
    KernelAdded(p0, one, [7, 7]);
    SteadyIsSafe(p);
    SafeIsShaped(p);
    IdleMeshHasRoom(p, one);
    var o := Placement(p, one).value;
    LaunchStep(p, 0, o);
    var pp := Place(p, 0, o);
    LaunchChanges(pp, 0);
    NoBuffer(pp);
    PassIsSteady(p);
    SteadyIsSafe(Pass0(p));
    TakenTile(Pass0(p));
  }

  lemma OneGroup(p: Pod, one: Coord)
    requires one == Coord(1, 1)
    ensures ScanFrom(Coord(0, 0), Coord(0, 0), one) == [Coord(0, 0)]
  {
    assert ScanFrom(Coord(1, 0), Coord(0, 0), one) == [];
  }

  lemma KernelAdded(p: Pod, one: Coord, argv: seq<nat>)
    requires p.kernels == [] && one == Coord(1, 1)
    ensures EnqueueKernel(p, one, one, argv).kernels == [Kernel(argv, 1, 0)]
  {
    var q := p.(kernels := [Kernel(argv, 0, 0)]);
    assert p.kernels + [Kernel(argv, 0, 0)] == q.kernels;
    var r := AddGroup(q, NewGroup(q, Coord(0, 0), one, one, 0));
    assert AddGrid(r, one, one, 0, Coord(1, 0)) == r;
    assert AddGrid(q, one, one, 0, Coord(0, 0)) == r;
  }

  lemma NoBuffer(p: Pod)
    requires |p.groups| == 1 && p.groups[0].kernel == 0 && p.kernels != [] && |p.kernels[0].argv| == 2
    requires p.mem.free == [MM.Block(0x8000_0000, 4)] && p.region == MM.RegionParams(0x8000_0000, 4, 4)
    ensures Launch(p, 0) == p.(groups := [p.groups[0].(argv := 0xFFFF_FFFF)])
  {
    assert MM.RoundUp(8, 4) == 8;
    assert MM.NULL % TWO32 == 0xFFFF_FFFF;
    assert MM.PodMalloc(p.region, p.mem, 8) == (p.mem, MM.Success, 0xFFFF_FFFF);
    assert !Copies(p, 0xFFFF_FFFF, 8);
  }

  lemma TakenTile(q: Pod)
    requires Safe(q) && |q.groups| == 1 && q.groups[0].Active() && q.mesh.dim == Coord(1, 1) && q.groups[0].dim == Coord(1, 1)
    ensures |q.tiles| == 1 && q.tiles[0].status.Busy?
  {
    WhereInvertsTileId(q.mesh, 0);
    assert Seated(q, q.groups[0]);
  }

  lemma FourByteRegion()
    ensures MM.RegionParams(0x8000_0000, 4, 4).Valid()
  {
    var a, m := 0x8000_0000, 4;
    AlignedIsMultiple(a, m);
  }
}
