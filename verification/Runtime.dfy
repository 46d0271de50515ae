// The CUDA-Lite runtime objects: a pod whose fields are updated in place, and
// a device of several pods fed by finish packets.
module Runtime {
  import opened Bits
  import opened Coordinates
  import opened EvaWindows
  import opened RemoteRead
  import opened TileGroups
  import opened Launching
  import opened LaunchData
  import opened Execution
  import opened Enqueue
  import opened History
  import EvaCopy
  import MM = MemoryManager

  // Argument vectors of a gigaword and more do not have a 32-bit size.
  const MAX_ARGUMENTS: nat := 0x4000_0000

  // The region lies in the DRAM window, which obeys the laws of an address map.
  ghost predicate Copyable(region: MM.Region, tr: EvaCopy.Map) {
    Aligned(region.alignment, 4) && region.start >= DRAM_BASE && EvaCopy.Lawful(tr, DRAM_BASE, TWO32)
  }

  // A pod allocation, without its status.
  ghost function Obtain(r: MM.Region, s: MM.State, n: nat): (MM.State, nat) {
    var (t, _, eva) := MM.PodMalloc(r, s, n);
    (t, eva)
  }

  /** How the launch of one group ended. */
  datatype Attempt = NoPlace | DidFail | DidLaunch

  class PodObject {
    const mesh: Mesh
    const barrierUsed: bool
    const ruche: int
    const manager: MM.Manager
    const tr: EvaCopy.Map
    const fabric: Fabric
    var tiles: seq<Tile>
    var groups: seq<Group>
    var capacity: nat
    var kernels: seq<Kernel>
    ghost var started: seq<Start>  // the launches so far

    ghost function View(): Pod
      reads this, manager
    {
      Pod(mesh, tiles, groups, kernels, manager.region, manager.View(), tr, barrierUsed, ruche)
    }

    // The group array is reallocated by doubling, which needs a positive capacity;
    // sizes of copies are 32-bit numbers; the network in front of the pod works.
    ghost predicate Valid()
      reads this, manager
    {
      && manager.Ok() && Shaped(View()) && KernelsKnown(View()) && |groups| <= capacity && capacity > 0
      && Copyable(manager.region, tr) && fabric.reliable && mesh.dim.x < 256 && mesh.dim.y < 256
      && forall k :: 0 <= k < |kernels| ==> |kernels[k].argv| < MAX_ARGUMENTS
    }

    // All tiles free, no groups, and the whole region on the manager's free list.
    constructor (mesh: Mesh, region: MM.Region, tr: EvaCopy.Map, fabric: Fabric, barrierUsed: bool, ruche: int)
      requires 1 <= mesh.dim.x < 256 && 1 <= mesh.dim.y < 256 && Copyable(region, tr) && fabric.reliable
      ensures fresh(manager) && manager.region == region && this.fabric == fabric
      ensures Valid() && View() == NewPod(mesh, region, tr, barrierUsed, ruche)
      ensures Ready(View(), []) && Done(View()) && started == []
    {
      this.mesh, this.barrierUsed, this.ruche, this.tr, this.fabric := mesh, barrierUsed, ruche, tr, fabric;
      manager := new MM.Manager(region);
      tiles := seq(mesh.dim.x * mesh.dim.y, _ => Tile(Free, mesh.origin, Coord(TWO32 - 1, TWO32 - 1)));
      groups, kernels, capacity, started := [], [], 1, [];
    }

    // Colour every tile of the rectangle, one coordinate at a time.
    method PaintTiles(o: Coord, d: Coord, tile: Tile)
      requires Valid() && RectInMesh(mesh, o, d) && d.x >= 1 && d.y >= 1
      modifies this`tiles
      ensures tiles == Paint(mesh, old(tiles), o, d, tile)
    {
      var xy := o;
      while !Stop(xy, o, d)
        invariant Scanning(xy, o, d) && |tiles| == |old(tiles)|
        invariant forall t :: 0 <= t < |tiles| ==>
          tiles[t] == if Passed(Where(mesh, t), xy, o, d) then tile else old(tiles[t])
        decreases o.x + d.x - xy.x, o.y + d.y - xy.y
      {
        ScanStep(xy, o, d);
        TileIdInvertsWhere(mesh, xy);
        var id := TileId(mesh, xy);
        forall t | 0 <= t < |tiles| ensures Where(mesh, t) == xy <==> t == id {
          WhereInvertsTileId(mesh, t);
        }
        tiles := tiles[id := tile];
        xy := Next(xy, o, d);
      }
      ScanDone(xy, o, d);
    }

    method RectIsFree(o: Coord, d: Coord) returns (free: bool)
      requires Valid() && RectInMesh(mesh, o, d) && d.x >= 1 && d.y >= 1
      ensures free <==> RectFree(View(), o, d)
    {
      free := true;
      var xy := o;
      while !Stop(xy, o, d)
        invariant Scanning(xy, o, d) && free
        invariant forall t :: 0 <= t < |tiles| && Passed(Where(mesh, t), xy, o, d) ==> tiles[t].status.Free?
        decreases o.x + d.x - xy.x, o.y + d.y - xy.y
      {
        ScanStep(xy, o, d);
        TileIdInvertsWhere(mesh, xy);
        var id := TileId(mesh, xy);
        if !tiles[id].status.Free? {
          return false;
        }
        forall t | 0 <= t < |tiles| ensures Where(mesh, t) == xy ==> t == id {
          WhereInvertsTileId(mesh, t);
        }
        xy := Next(xy, o, d);
      }
      ScanDone(xy, o, d);
    }

    method AllocateTiles(i: nat) returns (ok: bool)
      requires Valid() && i < |groups| && groups[i].dim.x >= 1 && groups[i].dim.y >= 1
      modifies this`tiles, this`groups
      ensures Valid()
      ensures ok <==> Placement(old(View()), old(groups[i].dim)).Some?
      ensures View() == if ok then Place(old(View()), i, Placement(old(View()), old(groups[i].dim)).value) else old(View())
    {
      var d := groups[i].dim;
      if mesh.dim.x < d.x || mesh.dim.y < d.y {
        return false;
      }
      var boundary := Boundary(mesh, d);
      var origin := mesh.origin;
      while !Stop(origin, mesh.origin, boundary)
        invariant View() == old(View()) && Valid() && Scanning(origin, mesh.origin, boundary)
        invariant Placement(View(), d) == Search(View(), d, origin)
        decreases mesh.origin.x + boundary.x - origin.x, mesh.origin.y + boundary.y - origin.y
      {
        var free := RectIsFree(origin, d);
        if free {
          PaintTiles(origin, d, Tile(TileStatus.Busy, origin, groups[i].id));
          groups := groups[i := groups[i].(origin := origin, status := Allocated)];
          return true;
        }
        origin := Next(origin, mesh.origin, boundary);
      }
      return false;
    }

    // Copy words from the host to device memory at an address from the manager.
    method CopyToDevice(eva: nat, words: seq<nat>) returns (ok: bool)
      requires Valid() && |words| < MAX_ARGUMENTS
      requires eva == 0xFFFF_FFFF || (DRAM_BASE <= eva && eva + 4 * |words| <= TWO32 && eva % 4 == 0)
      modifies fabric`mem
      ensures ok <==> Copies(View(), eva, 4 * |words|)
      ensures ok ==> EvaCopy.FlatWritten(tr, old(fabric.mem), fabric.mem, eva, Bytes(words))
      ensures EvaCopy.OnlyRange(tr, old(fabric.mem), fabric.mem, eva, if eva == 0xFFFF_FFFF then 0 else 4 * |words|)
    {
      var data := Bytes(words);
      var s;
      ghost var done;
      s, done := EvaCopy.EvaWrite(tr, fabric, eva, 0, data, DRAM_BASE, TWO32);
      if eva != 0xFFFF_FFFF {
        EvaCopy.WiderRange(tr, old(fabric.mem), fabric.mem, eva, done, eva, 4 * |words|);
      }
      return s == Success;
    }

    // One control word per tile, by row, after the word of the lock.
    method BarrierWords(dim: Coord) returns (words: seq<nat>)
      requires dim.x >= 1 && dim.y >= 1
      ensures words == BarrierTable(ruche, dim)
    {
      hide Tabled, ControlWord, BarrierTable;
      words := seq(1 + dim.x * dim.y, _ => 0);
      var c := Coord(0, 0);
      NothingTabled(ruche, dim, words);
      while !Stop(c, Coord(0, 0), dim)
        invariant Scanning(c, Coord(0, 0), dim) && Tabled(ruche, dim, words, c)
        decreases dim.x - c.x, dim.y - c.y
      {
        TabledStep(ruche, dim, words, c);
        words := words[1 + RowMajor(c, dim) := ControlWord(ruche, c, dim)];
        c := Next(c, Coord(0, 0), dim);
      }
      AllTabled(ruche, dim, words, c);
    }

    // Bytes outside the pod's memory keep their value.
    twostate predicate OnlyRegion()
      reads fabric`mem
    {
      EvaCopy.OnlyRange(tr, old(fabric.mem), fabric.mem, manager.region.start, manager.region.size)
    }

    // Obtain a buffer for the words and copy them there.
    method FillBuffer(words: seq<nat>) returns (eva: nat, ok: bool)
      requires Valid() && |words| < MAX_ARGUMENTS
      modifies manager, fabric`mem
      ensures Valid()
      ensures (manager.View(), eva) == Obtain(manager.region, old(manager.View()), 4 * |words|)
      ensures ok <==> Copies(View(), eva, 4 * |words|)
      ensures ok ==> EvaCopy.FlatHolds(tr, fabric.mem, eva, Bytes(words))
      ensures EvaCopy.OnlyRange(tr, old(fabric.mem), fabric.mem, eva, if eva == 0xFFFF_FFFF then 0 else 4 * |words|)
      ensures OnlyRegion()
    {
      hide Aligned, EvaCopy.OnlyRange, EvaCopy.FlatHolds, EvaCopy.CanCopy, EvaCopy.Lawful, Bytes, MM.Valid;
      OneBuffer(manager.region, manager.View(), 4 * |words|);
      eva := manager.Allocate(4 * |words|);
      eva := eva % TWO32;
      ok := CopyToDevice(eva, words);
      InRegion(manager.region, tr, old(fabric.mem), fabric.mem, eva, 4 * |words|);
    }

    // Obtain the buffers and fill them. On success they hold what the kernel and
    // the barrier need; a copy that fails ends the launch.
    method LaunchGroup(i: nat) returns (ok: bool)
      requires Valid() && i < |groups| && groups[i].status.Allocated?
      requires groups[i].dim.x >= 1 && groups[i].dim.y >= 1 && Fits(mesh, groups[i].dim)
      modifies this`groups, this`started, manager, fabric`mem
      ensures Valid() && View() == Launch(old(View()), i) && |groups| == |old(groups)|
      ensures groups[i].dim == old(groups[i].dim) && groups[i].kernel == old(groups[i].kernel)
      ensures ok <==> groups[i].status.Launched?
      ensures started == old(started) + if ok then [Start(i, groups[i].argv, groups[i].barcfg, fabric.mem)] else []
      ensures ok ==> Supplied(old(View()), Start(i, groups[i].argv, groups[i].barcfg, fabric.mem))
      ensures OnlyRegion()
    {
      hide EvaCopy.OnlyRange, EvaCopy.FlatHolds, EvaCopy.CanCopy, Copyable, BarrierTable, Bytes, MM.Valid, MM.PodMalloc;
      var g := groups[i];
      var args := kernels[g.kernel].argv;
      BarrierIsSmall(mesh, ruche, g.dim);
      ghost var s, m0 := manager.View(), fabric.mem;
      var argv;
      argv, ok := FillBuffer(args);
      ghost var m1 := fabric.mem;
      g := g.(argv := argv);
      if ok {
        var bar := 0;
        if barrierUsed {
          var words := BarrierWords(g.dim);
          bar, ok := FillBuffer(words);
          EvaCopy.RangesJoin(tr, m0, m1, fabric.mem, manager.region.start, manager.region.size);
          if ok {
            ArgumentsKept(manager.region, s, tr, m1, fabric.mem, args, words);
          }
        }
        if ok {
          g := g.(status := GroupStatus.Launched, barcfg := bar);
          started := started + [Start(i, g.argv, g.barcfg, fabric.mem)];
        }
      }
      groups := groups[i := g];
    }

    // Which groups a method has started.
    twostate function Since(): (log: seq<Start>)
      requires |old(started)| <= |started|
      reads this`started
    {
      started[|old(started)|..]
    }

    method TryLaunchGroup(i: nat) returns (r: Attempt)
      requires Valid() && Safe(View()) && NoneEmpty(View()) && i < |groups| && groups[i].status.Initialized?
      modifies this`tiles, this`groups, this`started, manager, fabric`mem
      ensures Valid() && Safe(View()) && NoneEmpty(View()) && |groups| == |old(groups)|
      ensures groups[i].dim == old(groups[i].dim)
      ensures r.NoPlace? <==> Placement(old(View()), old(groups[i].dim)).None?
      ensures View() == if r.NoPlace? then old(View())
        else Launch(Place(old(View()), i, Placement(old(View()), old(groups[i].dim)).value), i)
      ensures r.DidLaunch? <==> groups[i].status.Launched?
      ensures r.DidFail? <==> groups[i].status.Allocated?
      ensures forall j :: 0 <= j < |groups| && j != i ==> groups[j] == old(groups[j])
      ensures old(started) <= started && Runs(old(View()), View(), Since())
    {
      ghost var p := View();
      var found := AllocateTiles(i);
      if !found {
        NothingBegan(p);
        return NoPlace;
      }
      var o := Placement(p, p.groups[i].dim).value;
      LaunchStep(p, i, o);
      var ok := LaunchGroup(i);
      ghost var s := Start(i, groups[i].argv, groups[i].barcfg, fabric.mem);
      if ok { PlacedIsSupplied(p, i, o, s); }
      LaunchRuns(p, i, o, s);
      assert Since() == if ok then [s] else [];
      return if ok then DidLaunch else DidFail;
    }

    // One pass over all groups, launching every group that finds room; a launch
    // that fails ends the pass.
    method TryLaunch() returns (ok: bool)
      requires Valid() && Safe(View()) && NoneEmpty(View())
      modifies this`tiles, this`groups, this`started, manager, fabric`mem
      ensures Valid() && View() == Pass0(old(View()))
      ensures |groups| == |old(groups)|
      ensures ok <==> forall i :: 0 <= i < |groups| && groups[i].status.Allocated? ==> old(groups[i].status.Allocated?)
      ensures old(started) <= started && Runs(old(View()), View(), Since())
    {
      hide Copyable, MM.Valid, Safe, Launch, Placement, Place, Runs;
      var lastFailed := Coord(0, 0);
      var i := 0;
      NothingBegan(View());
      assert Since() == [];
      while i < |groups|
        invariant 0 <= i <= |groups| && Valid() && Safe(View()) && NoneEmpty(View())
        invariant Pass0(old(View())) == Pass(View(), i, lastFailed)
        invariant |groups| == |old(groups)| && forall j :: i <= j < |groups| ==> groups[j] == old(groups[j])
        invariant forall j :: 0 <= j < i && groups[j].status.Allocated? ==> old(groups[j].status.Allocated?)
        invariant old(started) <= started && Runs(old(View()), View(), Since())
        decreases |groups| - i
      {
        if groups[i].status.Initialized? && lastFailed != groups[i].dim {
          ghost var p, log := View(), started;
          var r := TryLaunchGroup(i);
          RunsTransitively(old(View()), p, View(), log[|old(started)|..], started[|log|..]);
          assert Since() == log[|old(started)|..] + started[|log|..];
          if r.DidFail? {
            return false;
          }
          if r.NoPlace? {
            lastFailed := groups[i].dim;
          }
        }
        i := i + 1;
      }
      return true;
    }

    // Free the group's tiles, then its buffers, and drop its kernel reference.
    method FinishGroup(i: nat)
      requires Valid() && Safe(View()) && i < |groups| && groups[i].Active()
      modifies this`tiles, this`groups, this`kernels, manager
      ensures Valid() && View() == Retire(old(View()), i)
      ensures groups == old(groups)[i := old(groups[i]).(
        dim := Coord(0, 0), origin := mesh.origin, id := Coord(0, 0), status := Finished)]
      ensures |tiles| == |old(tiles)| && forall t :: 0 <= t < |tiles| ==>
        tiles[t] == if InRect(Where(mesh, t), old(groups[i].origin), old(groups[i].dim))
          then Tile(Free, mesh.origin, Coord(0, 0)) else old(tiles[t])
      ensures var k := old(groups[i].kernel); var was := old(kernels[groups[i].kernel]);
        kernels == old(kernels)[k := if was.refcount == 1 then Kernel([], 0, was.exits + 1)
          else was.(refcount := was.refcount - 1)]
    {
      var g := groups[i];
      assert Seated(View(), g);
      PaintTiles(g.origin, g.dim, Tile(Free, mesh.origin, Coord(0, 0)));
      manager.Release(g.argv);
      manager.Release(g.barcfg);
      groups := groups[i := g.(dim := Coord(0, 0), origin := mesh.origin, id := Coord(0, 0), status := Finished)];
      var k := kernels[g.kernel];
      k := k.(refcount := k.refcount - 1);
      if k.refcount == 0 {
        k := Kernel([], 0, k.exits + 1);
      }
      kernels := kernels[g.kernel := k];
    }

    method AllFinished() returns (done: bool)
      ensures done <==> Done(View())
    {
      for i := 0 to |groups|
        invariant forall j :: 0 <= j < i ==> groups[j].status.Finished?
      {
        if !groups[i].status.Finished? {
          return false;
        }
      }
      return true;
    }

    method EnqueueGrid(gridDim: Coord, dim: Coord, argv: seq<nat>)
      requires Valid() && |argv| < MAX_ARGUMENTS && gridDim.x >= 1 && gridDim.y >= 1
      modifies this`groups, this`kernels, this`capacity
      ensures Valid() && View() == EnqueueKernel(old(View()), gridDim, dim, argv)
    {
      hide Copyable, MM.Valid;
      var k := |kernels|;
      kernels := kernels + [Kernel(argv, 0, 0)];
      var id := Coord(0, 0);
      while !Stop(id, Coord(0, 0), gridDim)
        invariant Scanning(id, Coord(0, 0), gridDim) && Valid() && k < |kernels|
        invariant EnqueueKernel(old(View()), gridDim, dim, argv) == AddGrid(View(), gridDim, dim, k, id)
        decreases gridDim.x - id.x, gridDim.y - id.y
      {
        if |groups| == capacity {
          capacity := capacity * 2;
        }
        groups := groups + [Group(id, gridDim, dim, mesh.origin, Initialized, k, 0, 0, FinishAddr(id, gridDim))];
        kernels := kernels[k := kernels[k].(refcount := kernels[k].refcount + 1)];
        id := Next(id, Coord(0, 0), gridDim);
      }
    }
  }

  // The barrier's words have a size of their own below the limit.
  lemma BarrierIsSmall(m: Mesh, r: int, dim: Coord)
    requires m.dim.x < 256 && m.dim.y < 256 && Fits(m, dim) && dim.x >= 1
    ensures |BarrierTable(r, dim)| < MAX_ARGUMENTS && BarrierBytes(dim) == 4 * |BarrierTable(r, dim)|
  {
    ProductSign(255 - dim.x, dim.y);
    assert dim.x * dim.y <= 255 * dim.y;
  }

  // Placing a group does not change what it needs.
  lemma PlacedIsSupplied(p: Pod, i: nat, o: Coord, s: Start)
    requires i < |p.groups| && p.mesh.dim.y > 0 && s.group == i && Supplied(Place(p, i, o), s)
    ensures Supplied(p, s)
  {
  }

  // A copy to a buffer changes nothing outside the region.
  lemma InRegion(r: MM.Region, tr: EvaCopy.Map, m0: Memory, m1: Memory, eva: nat, n: nat)
    requires eva == 0xFFFF_FFFF || (r.start <= eva && eva + n <= r.start + r.size)
    requires EvaCopy.OnlyRange(tr, m0, m1, eva, if eva == 0xFFFF_FFFF then 0 else n)
    ensures EvaCopy.OnlyRange(tr, m0, m1, r.start, r.size)
  {
    if eva != 0xFFFF_FFFF { EvaCopy.WiderRange(tr, m0, m1, eva, n, r.start, r.size); }
  }

  // Filling the barrier's buffer keeps the arguments.
  lemma ArgumentsKept(
    r: MM.Region, s: MM.State, tr: EvaCopy.Map, m1: Memory, m2: Memory, args: seq<nat>, words: seq<nat>)
    requires MM.Valid(r, s) && Copyable(r, tr) && words != []
    requires var (t, argv) := Obtain(r, s, 4 * |args|); var (_, bar) := Obtain(r, t, 4 * |words|);
      && EvaCopy.CanCopy(tr, argv, 0, 4 * |args|) && EvaCopy.FlatHolds(tr, m1, argv, Bytes(args))
      && EvaCopy.CanCopy(tr, bar, 0, 4 * |words|)
      && EvaCopy.OnlyRange(tr, m1, m2, bar, if bar == 0xFFFF_FFFF then 0 else 4 * |words|)
    ensures EvaCopy.FlatHolds(tr, m2, Obtain(r, s, 4 * |args|).1, Bytes(args))
  {
    hide MM.Valid, EvaCopy.OnlyRange, EvaCopy.FlatHolds, EvaCopy.Mapped, MM.PodMalloc;
    BuffersApart(r, s, 4 * |args|, 4 * |words|);
    var (t, argv) := Obtain(r, s, 4 * |args|);
    var (_, bar) := Obtain(r, t, 4 * |words|);
    if args != [] {
      EvaCopy.OtherRangeKept(tr, DRAM_BASE, TWO32, m1, m2, argv, Bytes(args), bar, 4 * |words|);
    } else {
      NoBytes(tr, m2, argv);
    }
  }

  lemma NoBytes(tr: EvaCopy.Map, mem: Memory, eva: nat)
    ensures EvaCopy.FlatHolds(tr, mem, eva, Bytes([]))
  {
  }
}
