// Adding a grid of tile groups to a pod.
module Enqueue {
  import opened Bits
  import opened Coordinates
  import opened TileGroups
  import opened Resources
  import opened Execution
  import MM = MemoryManager

  function NewGroup(p: Pod, id: Coord, gridDim: Coord, dim: Coord, kernel: nat): Group {
    Group(id, gridDim, dim, p.mesh.origin, Initialized, kernel, 0, 0, FinishAddr(id, gridDim))
  }

  /** Append one group and count its reference to the kernel. */
  function AddGroup(p: Pod, g: Group): Pod
    requires g.kernel < |p.kernels|
  {
    var k := p.kernels[g.kernel];
    p.(groups := p.groups + [g], kernels := p.kernels[g.kernel := k.(refcount := k.refcount + 1)])
  }

  ghost function AddGrid(p: Pod, gridDim: Coord, dim: Coord, kernel: nat, now: Coord): Pod
    requires kernel < |p.kernels| && Scanning(now, Coord(0, 0), gridDim)
    decreases gridDim.x - now.x, gridDim.y - now.y
  {
    if Stop(now, Coord(0, 0), gridDim) then p
    else AddGrid(AddGroup(p, NewGroup(p, now, gridDim, dim, kernel)), gridDim, dim, kernel, Next(now, Coord(0, 0), gridDim))
  }

  /** Create a kernel and enqueue one group for every coordinate of the grid. */
  ghost function EnqueueKernel(p: Pod, gridDim: Coord, dim: Coord, argv: seq<nat>): Pod
    requires gridDim.x >= 1 && gridDim.y >= 1
  {
    AddGrid(p.(kernels := p.kernels + [Kernel(argv, 0, 0)]), gridDim, dim, |p.kernels|, Coord(0, 0))
  }

  // ---------------------------------------------------------------- addresses

  function FlatId(id: Coord, gridDim: Coord): nat { id.y * gridDim.x + id.x }

  lemma FlatIdInRange(id: Coord, gridDim: Coord)
    requires id.x < gridDim.x && id.y < gridDim.y
    ensures FlatId(id, gridDim) < gridDim.x * gridDim.y
    ensures Quot(FlatId(id, gridDim), gridDim.x) == id.y && Rem(FlatId(id, gridDim), gridDim.x) == id.x
  {
    DivModUnique(FlatId(id, gridDim), gridDim.x, id.y, id.x);
    ProductSign(gridDim.y - 1 - id.y, gridDim.x);
    assert (gridDim.y - 1 - id.y) * gridDim.x == gridDim.x * gridDim.y - gridDim.x - id.y * gridDim.x;
  }

  lemma FinishAddrIsNumber(id: Coord, gridDim: Coord)
    ensures FinishAddr(id, gridDim) == 0xF000 + 4 * (id.y * gridDim.x + id.x)
  {
  }

  // The groups of one grid signal at different addresses.
  lemma FinishAddressesDiffer(a: Coord, b: Coord, gridDim: Coord)
    requires a.x < gridDim.x && a.y < gridDim.y && b.x < gridDim.x && b.y < gridDim.y
    ensures FinishAddr(a, gridDim) == FinishAddr(b, gridDim) <==> a == b
  {
    FlatIdInRange(a, gridDim);
    FlatIdInRange(b, gridDim);
  }

  // The 16-bit address field holds the signal addresses of all groups of a
  // grid exactly when the grid has at most 1024 groups.
  lemma FinishAddressesFit(gridDim: Coord)
    requires gridDim.x >= 1 && gridDim.y >= 1
    ensures gridDim.x * gridDim.y <= 1024
      <==> forall id: Coord :: id.x < gridDim.x && id.y < gridDim.y ==> FinishAddr(id, gridDim) < 0x1_0000
  {
    if gridDim.x * gridDim.y <= 1024 {
      forall id: Coord | id.x < gridDim.x && id.y < gridDim.y ensures FinishAddr(id, gridDim) < 0x1_0000 {
        FlatIdInRange(id, gridDim);
      }
    } else {
      var last := Coord(gridDim.x - 1, gridDim.y - 1);
      LastFinishAddress(gridDim);
      assert last.x < gridDim.x && last.y < gridDim.y && FinishAddr(last, gridDim) >= 0x1_0000;
    }
  }

  lemma LastFinishAddress(gridDim: Coord)
    requires gridDim.x >= 1 && gridDim.y >= 1
    ensures FinishAddr(Coord(gridDim.x - 1, gridDim.y - 1), gridDim) == FINISH_SIGNAL_BASE_ADDR + (gridDim.x * gridDim.y - 1) * 4
  {
    assert (gridDim.y - 1) * gridDim.x == gridDim.x * gridDim.y - gridDim.x;
  }

  // ---------------------------------------------------------------- invariants

  // Like Steady, but kernel k is still collecting its first references.
  ghost predicate Gathering(p: Pod, k: nat) {
    && Safe(p) && NoneEmpty(p) && MM.Valid(p.region, p.mem) && Aligned(p.region.alignment, 4) && k < |p.kernels|
    && forall j :: 0 <= j < |p.kernels| ==>
         && p.kernels[j].refcount == References(p.groups, j)
         && p.kernels[j].exits == if j != k && References(p.groups, j) == 0 then 1 else 0
  }

  lemma AddGroupGathers(p: Pod, g: Group)
    requires Gathering(p, g.kernel) && g.status.Initialized? && g.dim.x >= 1 && g.dim.y >= 1
    ensures Gathering(AddGroup(p, g), g.kernel) && References(AddGroup(p, g).groups, g.kernel) >= 1
    ensures Remaining(AddGroup(p, g).groups) == Remaining(p.groups) + 1
  {
    hide MM.Valid;
    var q := AddGroup(p, g);
    AddGroupIsSafe(p, g);
    forall j | 0 <= j < |q.kernels|
      ensures References(q.groups, j) == References(p.groups, j) + (if j == g.kernel then 1 else 0)
    {
      AppendCounts(p.groups, g, j);
    }
    AppendCounts(p.groups, g, 0);
  }

  lemma AddGroupIsHeld(p: Pod, base: seq<MM.Block>, g: Group)
    requires Held(p, base) && BuffersLive(p) && g.status.Initialized? && g.kernel < |p.kernels|
    ensures Held(AddGroup(p, g), base) && BuffersLive(AddGroup(p, g))
  {
    var q := AddGroup(p, g);
    forall b | b in q.mem.busy[|base|..] ensures Owned(q.groups, b.addr) {
      assert Owned(p.groups, b.addr);
      var j :| 0 <= j < |p.groups| && p.groups[j].status.Launched? && AddrOf(p.groups[j], b.addr);
      assert q.groups[j] == p.groups[j];
    }
  }

  lemma AddGroupIsSafe(p: Pod, g: Group)
    requires Safe(p) && g.status.Initialized? && g.kernel < |p.kernels|
    ensures Safe(AddGroup(p, g))
  {
    var q := AddGroup(p, g);
    forall i | 0 <= i < |q.groups| && q.groups[i].Active() ensures Seated(q, q.groups[i]) {
      assert Seated(p, p.groups[i]);
    }
    forall t | 0 <= t < |q.tiles| && q.tiles[t].status.Busy? ensures HasOwner(q, t) {
      assert HasOwner(p, t);
      var i :| 0 <= i < |p.groups| && p.groups[i].Active() && InRect(Where(p.mesh, t), p.groups[i].origin, p.groups[i].dim);
      assert q.groups[i] == p.groups[i];
    }
  }

  /** The groups of a grid, in the order they are enqueued. */
  ghost function GridGroups(p: Pod, ids: seq<Coord>, gridDim: Coord, dim: Coord, k: nat): seq<Group> {
    seq(|ids|, i requires 0 <= i < |ids| =>
      Group(ids[i], gridDim, dim, p.mesh.origin, Initialized, k, 0, 0, 0xF000 + 4 * (ids[i].y * gridDim.x + ids[i].x)))
  }

  lemma {:induction false} AddGridGathers(p: Pod, gridDim: Coord, dim: Coord, k: nat, now: Coord)
    requires Gathering(p, k) && Scanning(now, Coord(0, 0), gridDim) && dim.x >= 1 && dim.y >= 1
    requires Stop(now, Coord(0, 0), gridDim) ==> References(p.groups, k) >= 1
    ensures var q := AddGrid(p, gridDim, dim, k, now); var ids := ScanFrom(now, Coord(0, 0), gridDim);
      && Gathering(q, k) && References(q.groups, k) >= 1 && Remaining(q.groups) == Remaining(p.groups) + |ids|
      && q == p.(groups := q.groups, kernels := q.kernels) && q.groups == p.groups + GridGroups(p, ids, gridDim, dim, k)
    decreases gridDim.x - now.x, gridDim.y - now.y
  {
    hide Gathering, References, Remaining;
    GatheringIsKnown(p, k);
    if !Stop(now, Coord(0, 0), gridDim) {
      var g := NewGroup(p, now, gridDim, dim, k);
      var q := AddGroup(p, g);
      AddGroupGathers(p, g);
      AddGridGathers(q, gridDim, dim, k, Next(now, Coord(0, 0), gridDim));
      var rest := ScanFrom(Next(now, Coord(0, 0), gridDim), Coord(0, 0), gridDim);
      assert GridGroups(p, [now] + rest, gridDim, dim, k) == [g] + GridGroups(q, rest, gridDim, dim, k);
    }
  }

  // Adding a grid leaves the groups and kernels there are as they were.
  lemma {:induction false} AddGridKeepsOthers(p: Pod, gridDim: Coord, dim: Coord, k: nat, now: Coord)
    requires k < |p.kernels| && Scanning(now, Coord(0, 0), gridDim)
    ensures var q := AddGrid(p, gridDim, dim, k, now);
      && q == p.(groups := q.groups, kernels := q.kernels) && p.groups <= q.groups && |q.kernels| == |p.kernels|
      && q.kernels[k] == p.kernels[k].(refcount := p.kernels[k].refcount + |ScanFrom(now, Coord(0, 0), gridDim)|)
      && forall j :: 0 <= j < |p.kernels| && j != k ==> q.kernels[j] == p.kernels[j]
    decreases gridDim.x - now.x, gridDim.y - now.y
  {
    if !Stop(now, Coord(0, 0), gridDim) {
      var q := AddGroup(p, NewGroup(p, now, gridDim, dim, k));
      AddGridKeepsOthers(q, gridDim, dim, k, Next(now, Coord(0, 0), gridDim));
    }
  }

  lemma EnqueueKeepsOthers(p: Pod, gridDim: Coord, dim: Coord, argv: seq<nat>)
    requires gridDim.x >= 1 && gridDim.y >= 1
    ensures var q := EnqueueKernel(p, gridDim, dim, argv);
      q == p.(groups := q.groups, kernels := q.kernels) && p.groups <= q.groups && p.kernels <= q.kernels
  {
    AddGridKeepsOthers(p.(kernels := p.kernels + [Kernel(argv, 0, 0)]), gridDim, dim, |p.kernels|, Coord(0, 0));
  }

  lemma GatheringIsKnown(p: Pod, k: nat)
    requires Gathering(p, k)
    ensures k < |p.kernels|
  {
  }

  lemma {:induction false} AddGridIsHeld(p: Pod, base: seq<MM.Block>, gridDim: Coord, dim: Coord, k: nat, now: Coord)
    requires Held(p, base) && BuffersLive(p) && k < |p.kernels| && Scanning(now, Coord(0, 0), gridDim)
    ensures var q := AddGrid(p, gridDim, dim, k, now); Held(q, base) && BuffersLive(q)
    decreases gridDim.x - now.x, gridDim.y - now.y
  {
    hide Held, BuffersLive;
    if !Stop(now, Coord(0, 0), gridDim) {
      var g := NewGroup(p, now, gridDim, dim, k);
      AddGroupIsHeld(p, base, g);
      AddGridIsHeld(AddGroup(p, g), base, gridDim, dim, k, Next(now, Coord(0, 0), gridDim));
    }
  }

  // ---------------------------------------------------------------- main results

  // Enqueuing a grid adds one waiting group per grid coordinate, and a kernel with
  // the given arguments that counts them, and keeps a pod steady, whatever the shape.
  lemma EnqueueIsSteady(p: Pod, gridDim: Coord, dim: Coord, argv: seq<nat>)
    requires Steady(p) && gridDim.x >= 1 && gridDim.y >= 1 && dim.x >= 1 && dim.y >= 1
    ensures var q := EnqueueKernel(p, gridDim, dim, argv); var ids := ScanFrom(Coord(0, 0), Coord(0, 0), gridDim);
      && Steady(q) && q == p.(groups := q.groups, kernels := q.kernels)
      && q.groups == p.groups + GridGroups(p, ids, gridDim, dim, |p.kernels|)
      && Remaining(q.groups) == Remaining(p.groups) + |ids|
      && q.kernels == p.kernels + [Kernel(argv, |ids|, 0)]
  {
    hide MM.Valid;
    var p' := p.(kernels := p.kernels + [Kernel(argv, 0, 0)]);
    NoReferences(p.groups, |p.kernels|);
    NewKernelIsSafe(p, p');
    AddGridGathers(p', gridDim, dim, |p.kernels|, Coord(0, 0));
    AddGridKeepsOthers(p', gridDim, dim, |p.kernels|, Coord(0, 0));
    var ids := ScanFrom(Coord(0, 0), Coord(0, 0), gridDim);
    assert GridGroups(p', ids, gridDim, dim, |p.kernels|) == GridGroups(p, ids, gridDim, dim, |p.kernels|);
  }

  // A ready pod stays ready exactly when the grid has at most 1024 groups.
  lemma EnqueueIsReady(p: Pod, base: seq<MM.Block>, gridDim: Coord, dim: Coord, argv: seq<nat>)
    requires Ready(p, base) && gridDim.x >= 1 && gridDim.y >= 1 && dim.x >= 1 && dim.y >= 1
    ensures Ready(EnqueueKernel(p, gridDim, dim, argv), base) <==> gridDim.x * gridDim.y <= 1024
    ensures AllFit(EnqueueKernel(p, gridDim, dim, argv)) <==> AllFit(p) && Fits(p.mesh, dim)
  {
    var q := EnqueueKernel(p, gridDim, dim, argv);
    var ids := ScanFrom(Coord(0, 0), Coord(0, 0), gridDim);
    ReadyIsSteady(p, base);
    EnqueueIsSteady(p, gridDim, dim, argv);
    NewKernelIsHeld(p, base, argv);
    AddGridIsHeld(p.(kernels := p.kernels + [Kernel(argv, 0, 0)]), base, gridDim, dim, |p.kernels|, Coord(0, 0));
    ScanVisitsAllOnce(Coord(0, 0), Coord(0, 0), gridDim);
    hide Steady, Held, BuffersLive, Safe, EnqueueKernel, FinishAddr, Counted;
    GridFits(p, q, ids, gridDim, dim);
    SignalsFit(p, q, ids, gridDim, dim);
    SteadyIsSafe(q);
  }

  lemma ReadyIsSteady(p: Pod, base: seq<MM.Block>)
    requires Ready(p, base)
    ensures Steady(p)
  {
  }

  lemma SteadyIsSafe(p: Pod)
    requires Steady(p)
    ensures Safe(p) && NoneEmpty(p) && Counted(p)
  {
  }

  // The groups added fit the mesh exactly if their shape does.
  lemma GridFits(p: Pod, q: Pod, ids: seq<Coord>, gridDim: Coord, dim: Coord)
    requires q.mesh == p.mesh && q.groups == p.groups + GridGroups(p, ids, gridDim, dim, |p.kernels|)
    requires forall c :: c in ids <==> InRect(c, Coord(0, 0), gridDim)
    requires gridDim.x >= 1 && gridDim.y >= 1
    ensures AllFit(q) <==> AllFit(p) && Fits(p.mesh, dim)
  {
    assert Coord(0, 0) in ids;
    assert q.groups[|p.groups|].status.Initialized?;
    assert forall i :: 0 <= i < |p.groups| ==> q.groups[i] == p.groups[i];
  }

  // Their signal addresses fit exactly if the grid is small enough.
  lemma SignalsFit(p: Pod, q: Pod, ids: seq<Coord>, gridDim: Coord, dim: Coord)
    requires q.groups == p.groups + GridGroups(p, ids, gridDim, dim, |p.kernels|)
    requires forall c :: c in ids <==> InRect(c, Coord(0, 0), gridDim)
    requires gridDim.x >= 1 && gridDim.y >= 1
    requires forall i :: 0 <= i < |p.groups| ==> !p.groups[i].status.Allocated? && p.groups[i].finishEpa < 0x1_0000
    ensures (forall i :: 0 <= i < |q.groups| ==> !q.groups[i].status.Allocated? && q.groups[i].finishEpa < 0x1_0000)
      <==> gridDim.x * gridDim.y <= 1024
  {
    hide FinishAddr;
    FinishAddressesFit(gridDim);
    forall id ensures FinishAddr(id, gridDim) == 0xF000 + 4 * (id.y * gridDim.x + id.x) {
      FinishAddrIsNumber(id, gridDim);
    }
    forall i | 0 <= i < |p.groups| ensures q.groups[i] == p.groups[i] { }
    forall i | 0 <= i < |ids| ensures q.groups[|p.groups| + i].finishEpa == FinishAddr(ids[i], gridDim) { assert ids[i] in ids; }
    if gridDim.x * gridDim.y > 1024 {
      var id: Coord :| id.x < gridDim.x && id.y < gridDim.y && FinishAddr(id, gridDim) >= 0x1_0000;
      assert id in ids;
      var i :| 0 <= i < |ids| && ids[i] == id;
      assert q.groups[|p.groups| + i].finishEpa >= 0x1_0000;
    } else {
      forall i | |p.groups| <= i < |q.groups| ensures q.groups[i].finishEpa < 0x1_0000 {
        assert ids[i - |p.groups|] in ids;
      }
    }
  }

  lemma NewKernelIsHeld(p: Pod, base: seq<MM.Block>, argv: seq<nat>)
    requires Ready(p, base)
    ensures var q := p.(kernels := p.kernels + [Kernel(argv, 0, 0)]); Held(q, base) && BuffersLive(q)
  {
  }

  lemma NewKernelIsSafe(p: Pod, q: Pod)
    requires Safe(p) && q == p.(kernels := q.kernels) && |q.kernels| >= |p.kernels|
    ensures Safe(q)
  {
    forall i | 0 <= i < |q.groups| && q.groups[i].Active() ensures Seated(q, q.groups[i]) {
      assert Seated(p, p.groups[i]);
    }
    forall t | 0 <= t < |q.tiles| && q.tiles[t].status.Busy? ensures HasOwner(q, t) {
      assert HasOwner(p, t);
    }
  }

  lemma {:induction false} NoReferences(gs: seq<Group>, k: nat)
    requires forall i :: 0 <= i < |gs| ==> gs[i].kernel < k
    ensures References(gs, k) == 0
  {
    if gs != [] { NoReferences(gs[1..], k); }
  }
}
