// One pod of the CUDA-Lite runtime: a mesh of tiles and the groups enqueued on it.
module TileGroups {
  import opened Coordinates
  import EvaCopy
  import MM = MemoryManager

  datatype Option<T> = None | Some(value: T)

  datatype TileStatus = Free | Busy
  datatype Tile = Tile(status: TileStatus, origin: Coord, groupId: Coord)

  datatype GroupStatus = Initialized | Allocated | Launched | Finished

  /** A tile group: its shape and place, the kernel it runs, its device buffers,
      and the host address its last tile writes when the group is done. */
  datatype Group = Group(
    id: Coord, gridDim: Coord, dim: Coord, origin: Coord, status: GroupStatus,
    kernel: nat, argv: nat, barcfg: nat, finishEpa: nat)
  {
    predicate Active() { status.Allocated? || status.Launched? }
    predicate Unfinished() { !status.Finished? }
  }

  /** A kernel invocation with its argument words; exits counts how often it has
      been cleaned up. */
  datatype Kernel = Kernel(argv: seq<nat>, refcount: int, exits: nat)

  datatype Mesh = Mesh(origin: Coord, dim: Coord)

  datatype Pod = Pod(
    mesh: Mesh, tiles: seq<Tile>, groups: seq<Group>, kernels: seq<Kernel>,
    region: MM.Region, mem: MM.State, tr: EvaCopy.Map, barrierUsed: bool, ruche: int)

  const FINISH_SIGNAL_BASE_ADDR: nat := 0xF000

  function FinishAddr(id: Coord, gridDim: Coord): nat {
    FINISH_SIGNAL_BASE_ADDR + (id.y * gridDim.x + id.x) * 4
  }

  // ---------------------------------------------------------------- tiles

  /** The network coordinate of tile number t. */
  function Where(m: Mesh, t: nat): Coord
    requires m.dim.y > 0
  {
    Add(m.origin, FromIndex(t, m.dim))
  }

  /** The number of the tile at a network coordinate. */
  function TileId(m: Mesh, c: Coord): nat
    requires InRect(c, m.origin, m.dim)
  {
    ToIndex(Coord(c.x - m.origin.x, c.y - m.origin.y), m.dim)
  }

  lemma TileIdInvertsWhere(m: Mesh, c: Coord)
    requires InRect(c, m.origin, m.dim)
    ensures TileId(m, c) < m.dim.x * m.dim.y && Where(m, TileId(m, c)) == c
  {
    IndexRoundTrip(Coord(c.x - m.origin.x, c.y - m.origin.y), m.dim);
  }

  lemma WhereInvertsTileId(m: Mesh, t: nat)
    requires m.dim.y > 0 && t < m.dim.x * m.dim.y
    ensures InRect(Where(m, t), m.origin, m.dim) && TileId(m, Where(m, t)) == t
  {
    CoordRoundTrip(t, m.dim);
  }

  ghost predicate Shaped(p: Pod) {
    p.mesh.dim.x >= 1 && p.mesh.dim.y >= 1 && |p.tiles| == p.mesh.dim.x * p.mesh.dim.y
  }

  /** All tiles of the rectangle are free. */
  ghost predicate RectFree(p: Pod, o: Coord, d: Coord)
    requires Shaped(p)
  {
    forall t :: 0 <= t < |p.tiles| && InRect(Where(p.mesh, t), o, d) ==> p.tiles[t].status.Free?
  }

  ghost predicate RectInMesh(m: Mesh, o: Coord, d: Coord) {
    m.origin.x <= o.x && m.origin.y <= o.y
    && o.x + d.x <= m.origin.x + m.dim.x && o.y + d.y <= m.origin.y + m.dim.y
  }

  ghost predicate Apart(o: Coord, d: Coord, o': Coord, d': Coord) {
    o.x + d.x <= o'.x || o'.x + d'.x <= o.x || o.y + d.y <= o'.y || o'.y + d'.y <= o.y
  }

  function Paint(m: Mesh, tiles: seq<Tile>, o: Coord, d: Coord, tile: Tile): seq<Tile>
    requires m.dim.y > 0
  {
    seq(|tiles|, t requires 0 <= t < |tiles| => if InRect(Where(m, t), o, d) then tile else tiles[t])
  }

  // ---------------------------------------------------------------- placement

  /** The origins a shape can have inside the mesh, as a rectangle of their own. */
  function Boundary(m: Mesh, d: Coord): Coord
    requires d.x <= m.dim.x && d.y <= m.dim.y
  {
    Coord(m.dim.x - d.x + 1, m.dim.y - d.y + 1)
  }

  predicate Fits(m: Mesh, d: Coord) { d.x <= m.dim.x && d.y <= m.dim.y }

  ghost function Search(p: Pod, d: Coord, now: Coord): Option<Coord>
    requires Shaped(p) && Fits(p.mesh, d) && Scanning(now, p.mesh.origin, Boundary(p.mesh, d))
    decreases p.mesh.origin.x + p.mesh.dim.x - d.x + 1 - now.x, p.mesh.origin.y + p.mesh.dim.y - d.y + 1 - now.y
  {
    var b := Boundary(p.mesh, d);
    if Stop(now, p.mesh.origin, b) then None
    else if RectFree(p, now, d) then Some(now)
    else Search(p, d, Next(now, p.mesh.origin, b))
  }

  /** Where a group of shape d goes: the first free rectangle in scan order. */
  ghost function Placement(p: Pod, d: Coord): Option<Coord>
    requires Shaped(p)
  {
    if Fits(p.mesh, d) then Search(p, d, p.mesh.origin) else None
  }

  ghost predicate IsFirst(p: Pod, d: Coord, now: Coord, o: Coord)
    requires Shaped(p)
  {
    && RectInMesh(p.mesh, o, d) && !Before(o, now) && RectFree(p, o, d)
    && forall o' :: RectInMesh(p.mesh, o', d) && !Before(o', now) && Before(o', o) ==> !RectFree(p, o', d)
  }

  lemma {:induction false} SearchIsFirst(p: Pod, d: Coord, now: Coord)
    requires Shaped(p) && Fits(p.mesh, d) && Scanning(now, p.mesh.origin, Boundary(p.mesh, d))
    ensures match Search(p, d, now)
      case None => forall o :: RectInMesh(p.mesh, o, d) && !Before(o, now) ==> !RectFree(p, o, d)
      case Some(o) => IsFirst(p, d, now, o)
    decreases p.mesh.origin.x + p.mesh.dim.x - d.x + 1 - now.x, p.mesh.origin.y + p.mesh.dim.y - d.y + 1 - now.y
  {
    var b := Boundary(p.mesh, d);
    if !Stop(now, p.mesh.origin, b) && !RectFree(p, now, d) {
      ScanStep(now, p.mesh.origin, b);
      SearchIsFirst(p, d, Next(now, p.mesh.origin, b));
    }
  }

  // The search fails exactly when no in-mesh rectangle of the shape is free,
  // and otherwise finds the first one in scan order.
  lemma PlacementIsComplete(p: Pod, d: Coord)
    requires Shaped(p)
    ensures Placement(p, d).None? <==> forall o :: RectInMesh(p.mesh, o, d) ==> !RectFree(p, o, d)
    ensures Placement(p, d).Some? ==> IsFirst(p, d, p.mesh.origin, Placement(p, d).value)
  {
    if Fits(p.mesh, d) {
      SearchIsFirst(p, d, p.mesh.origin);
    }
  }

  // ---------------------------------------------------------------- transitions

  /** Mark the rectangle busy and record where the group went. */
  function Place(p: Pod, i: nat, o: Coord): Pod
    requires i < |p.groups| && p.mesh.dim.y > 0
  {
    var g := p.groups[i];
    p.(tiles := Paint(p.mesh, p.tiles, o, g.dim, Tile(Busy, o, g.id)),
       groups := p.groups[i := g.(status := Allocated, origin := o)])
  }

  // One word per tile and one for the lock.
  function BarrierBytes(dim: Coord): nat { (1 + dim.x * dim.y) * 4 }

  function ArgumentBytes(p: Pod, g: Group): nat
    requires g.kernel < |p.kernels|
  {
    |p.kernels[g.kernel].argv| * 4
  }

  // A copy of n bytes from the host to device memory succeeds.
  ghost predicate Copies(p: Pod, eva: nat, n: nat) { EvaCopy.CanCopy(p.tr, eva, 0, n) }

  /** Allocate the group's device buffers, fill them, and start it. A copy that
      fails ends the launch, and the group keeps its tiles. */
  ghost function Launch(p: Pod, i: nat): Pod
    requires i < |p.groups| && p.groups[i].kernel < |p.kernels|
  {
    var g := p.groups[i];
    var n := ArgumentBytes(p, g);
    var (mem, _, argv) := MM.PodMalloc(p.region, p.mem, n);
    if !Copies(p, argv, n) then p.(mem := mem, groups := p.groups[i := g.(argv := argv)])
    else if !p.barrierUsed then
      p.(mem := mem, groups := p.groups[i := g.(status := Launched, argv := argv, barcfg := 0)])
    else
      var (mem', _, bar) := MM.PodMalloc(p.region, mem, BarrierBytes(g.dim));
      if !Copies(p, bar, BarrierBytes(g.dim)) then p.(mem := mem', groups := p.groups[i := g.(argv := argv)])
      else p.(mem := mem', groups := p.groups[i := g.(status := Launched, argv := argv, barcfg := bar)])
  }

  /** Free the group's tiles and buffers, finish it, and drop its kernel reference. */
  function Retire(p: Pod, i: nat): Pod
    requires i < |p.groups| && p.groups[i].kernel < |p.kernels| && p.mesh.dim.y > 0
  {
    var g := p.groups[i];
    var k := p.kernels[g.kernel];
    var left := k.refcount - 1;
    p.(tiles := Paint(p.mesh, p.tiles, g.origin, g.dim, Tile(Free, p.mesh.origin, Coord(0, 0))),
       mem := MM.FreeResult(MM.FreeResult(p.mem, g.argv), g.barcfg),
       groups := p.groups[i := g.(dim := Coord(0, 0), origin := p.mesh.origin, id := Coord(0, 0), status := Finished)],
       kernels := p.kernels[g.kernel := if left == 0 then Kernel([], 0, k.exits + 1) else k.(refcount := left)])
  }

  /** One launch pass from group i on; lastFailed is the shape that failed last. A
      launch that fails ends the pass. */
  ghost function Pass(p: Pod, i: nat, lastFailed: Coord): Pod
    requires Shaped(p) && KernelsKnown(p)
    decreases |p.groups| - i
  {
    if i >= |p.groups| then p
    else
      var g := p.groups[i];
      if !g.status.Initialized? || lastFailed == g.dim then Pass(p, i + 1, lastFailed)
      else match Placement(p, g.dim)
        case None => Pass(p, i + 1, g.dim)
        case Some(o) =>
          var q := Launch(Place(p, i, o), i);
          if q.groups[i].status.Launched? then Pass(q, i + 1, lastFailed) else q
  }

  /** The same pass without the shape shortcut. */
  ghost function PlainPass(p: Pod, i: nat): Pod
    requires Shaped(p) && KernelsKnown(p)
    decreases |p.groups| - i
  {
    if i >= |p.groups| then p
    else
      var g := p.groups[i];
      if !g.status.Initialized? then PlainPass(p, i + 1)
      else match Placement(p, g.dim)
        case None => PlainPass(p, i + 1)
        case Some(o) =>
          var q := Launch(Place(p, i, o), i);
          if q.groups[i].status.Launched? then PlainPass(q, i + 1) else q
  }

  ghost predicate KernelsKnown(p: Pod) {
    forall i :: 0 <= i < |p.groups| ==> p.groups[i].kernel < |p.kernels|
  }

  // ---------------------------------------------------------------- invariants

  // Groups that hold tiles hold disjoint rectangles of the mesh; a tile is busy
  // exactly when one of them covers it, and then it names that group.
  ghost predicate Safe(p: Pod) {
    && Shaped(p) && KernelsKnown(p)
    && (forall i :: 0 <= i < |p.groups| && p.groups[i].Active() ==> Seated(p, p.groups[i]))
    && (forall i, j :: 0 <= i < j < |p.groups| && p.groups[i].Active() && p.groups[j].Active() ==>
          Apart(p.groups[i].origin, p.groups[i].dim, p.groups[j].origin, p.groups[j].dim))
    && (forall t :: 0 <= t < |p.tiles| && p.tiles[t].status.Busy? ==> HasOwner(p, t))
  }

  ghost predicate Seated(p: Pod, g: Group)
    requires Shaped(p)
  {
    && g.dim.x >= 1 && g.dim.y >= 1 && RectInMesh(p.mesh, g.origin, g.dim)
    && forall t :: 0 <= t < |p.tiles| && InRect(Where(p.mesh, t), g.origin, g.dim) ==>
         p.tiles[t] == Tile(Busy, g.origin, g.id)
  }

  ghost predicate HasOwner(p: Pod, t: nat)
    requires Shaped(p) && t < |p.tiles|
  {
    exists i :: 0 <= i < |p.groups| && p.groups[i].Active() && InRect(Where(p.mesh, t), p.groups[i].origin, p.groups[i].dim)
  }

  // Waiting groups have at least one tile.
  ghost predicate NoneEmpty(p: Pod) {
    forall i :: 0 <= i < |p.groups| && p.groups[i].status.Initialized? ==>
      p.groups[i].dim.x >= 1 && p.groups[i].dim.y >= 1
  }

  // Waiting groups have shapes that the mesh can hold.
  ghost predicate AllFit(p: Pod) {
    forall i :: 0 <= i < |p.groups| && p.groups[i].status.Initialized? ==> Fits(p.mesh, p.groups[i].dim)
  }

  // Some launch failed: a group has its tiles, but was not started.
  ghost predicate Stopped(p: Pod) { exists i :: 0 <= i < |p.groups| && p.groups[i].status.Allocated? }

  lemma PlaceIsSafe(p: Pod, i: nat, o: Coord)
    requires Safe(p) && i < |p.groups| && p.groups[i].status.Initialized?
    requires p.groups[i].dim.x >= 1 && p.groups[i].dim.y >= 1
    requires RectInMesh(p.mesh, o, p.groups[i].dim) && RectFree(p, o, p.groups[i].dim)
    ensures Safe(Place(p, i, o))
  {
    var q := Place(p, i, o);
    var d := p.groups[i].dim;
    forall j | 0 <= j < |p.groups| && p.groups[j].Active()
      ensures Apart(o, d, p.groups[j].origin, p.groups[j].dim)
    {
      FreeRectIsApart(p, o, d, p.groups[j]);
    }
    forall j | 0 <= j < |q.groups| && q.groups[j].Active() ensures Seated(q, q.groups[j]) {
      if j != i { assert Seated(p, p.groups[j]); }
    }
    forall t | 0 <= t < |q.tiles| && q.tiles[t].status.Busy? ensures HasOwner(q, t) {
      if InRect(Where(p.mesh, t), o, d) {
        assert q.groups[i].Active();
      } else {
        assert HasOwner(p, t);
        var j :| 0 <= j < |p.groups| && p.groups[j].Active() && InRect(Where(p.mesh, t), p.groups[j].origin, p.groups[j].dim);
        assert q.groups[j] == p.groups[j];
      }
    }
  }

  // A free rectangle cannot share a tile with a seated group.
  lemma FreeRectIsApart(p: Pod, o: Coord, d: Coord, g: Group)
    requires Shaped(p) && Seated(p, g) && RectFree(p, o, d) && RectInMesh(p.mesh, o, d)
    requires d.x >= 1 && d.y >= 1
    ensures Apart(o, d, g.origin, g.dim)
  {
    var c := Coord(if o.x < g.origin.x then g.origin.x else o.x, if o.y < g.origin.y then g.origin.y else o.y);
    if !Apart(o, d, g.origin, g.dim) {
      TileIdInvertsWhere(p.mesh, c);
      assert p.tiles[TileId(p.mesh, c)].status.Free?;
    }
  }

  // A launch changes the memory and one group: its buffers and perhaps its status.
  lemma LaunchChanges(p: Pod, i: nat)
    requires i < |p.groups| && p.groups[i].kernel < |p.kernels|
    ensures var q := Launch(p, i); var g, h := p.groups[i], q.groups[i];
      && q == p.(mem := q.mem, groups := p.groups[i := h])
      && h == g.(status := h.status, argv := h.argv, barcfg := h.barcfg)
      && (h.status == g.status || h.status.Launched?)
  {
  }

  lemma LaunchIsSafe(p: Pod, i: nat)
    requires Safe(p) && i < |p.groups| && p.groups[i].status.Allocated?
    ensures Safe(Launch(p, i))
  {
    LaunchChanges(p, i);
    hide Launch;
    var q := Launch(p, i);
    forall j | 0 <= j < |q.groups| && q.groups[j].Active() ensures Seated(q, q.groups[j]) {
      assert Seated(p, p.groups[j]);
    }
    forall t | 0 <= t < |q.tiles| && q.tiles[t].status.Busy? ensures HasOwner(q, t) {
      assert HasOwner(p, t);
      var j :| 0 <= j < |p.groups| && p.groups[j].Active() && InRect(Where(p.mesh, t), p.groups[j].origin, p.groups[j].dim);
      assert q.groups[j].Active();
    }
  }

  lemma RetireIsSafe(p: Pod, i: nat)
    requires Safe(p) && i < |p.groups| && p.groups[i].Active()
    ensures Safe(Retire(p, i))
  {
    var q := Retire(p, i);
    var g := p.groups[i];
    forall j | 0 <= j < |q.groups| && q.groups[j].Active() ensures Seated(q, q.groups[j]) {
      assert Seated(p, p.groups[j]);
      if j < i {
        assert Apart(p.groups[j].origin, p.groups[j].dim, g.origin, g.dim);
      } else {
        assert Apart(g.origin, g.dim, p.groups[j].origin, p.groups[j].dim);
      }
    }
    forall t | 0 <= t < |q.tiles| && q.tiles[t].status.Busy? ensures HasOwner(q, t) {
      assert HasOwner(p, t);
      var j :| 0 <= j < |p.groups| && p.groups[j].Active() && InRect(Where(p.mesh, t), p.groups[j].origin, p.groups[j].dim);
      assert q.groups[j] == p.groups[j];
    }
  }

  // Each busy tile is in exactly one rectangle.
  lemma BusyTileHasOneOwner(p: Pod, t: nat)
    requires Safe(p) && t < |p.tiles|
    ensures p.tiles[t].status.Busy? <==> HasOwner(p, t)
    ensures forall i, j :: 0 <= i < j < |p.groups| && p.groups[i].Active() && p.groups[j].Active() ==>
      !(InRect(Where(p.mesh, t), p.groups[i].origin, p.groups[i].dim)
        && InRect(Where(p.mesh, t), p.groups[j].origin, p.groups[j].dim))
  {
    if HasOwner(p, t) {
      var i :| 0 <= i < |p.groups| && p.groups[i].Active() && InRect(Where(p.mesh, t), p.groups[i].origin, p.groups[i].dim);
      assert Seated(p, p.groups[i]);
    }
  }

  // ---------------------------------------------------------------- the pass

  // A pass only turns tiles busy.
  ghost predicate OnlyBusier(p: Pod, q: Pod) {
    p.mesh == q.mesh && |p.tiles| == |q.tiles|
    && forall t :: 0 <= t < |p.tiles| && p.tiles[t].status.Busy? ==> q.tiles[t].status.Busy?
  }

  lemma BusierHasNoNewPlace(p: Pod, q: Pod, d: Coord)
    requires Shaped(p) && Shaped(q) && OnlyBusier(p, q) && Placement(p, d).None?
    ensures Placement(q, d).None?
  {
    PlacementIsComplete(p, d);
    PlacementIsComplete(q, d);
    forall o | RectInMesh(q.mesh, o, d) ensures !RectFree(q, o, d) {
      assert !RectFree(p, o, d);
      var t :| 0 <= t < |p.tiles| && InRect(Where(p.mesh, t), o, d) && !p.tiles[t].status.Free?;
      assert q.tiles[t].status.Busy?;
    }
  }

  // What launching one group keeps, whether it starts or not.
  lemma LaunchStep(p: Pod, i: nat, o: Coord)
    requires Safe(p) && NoneEmpty(p) && i < |p.groups| && p.groups[i].status.Initialized?
    requires Placement(p, p.groups[i].dim) == Some(o)
    ensures var q := Launch(Place(p, i, o), i);
      && Safe(q) && NoneEmpty(q) && OnlyBusier(p, q) && |q.groups| == |p.groups|
      && Started(p, p.groups[i], q.groups[i]) && q.groups[i].origin == o
      && forall j :: 0 <= j < |p.groups| && j != i ==> q.groups[j] == p.groups[j]
  {
    hide Launch, Safe, Placement, RectFree;
    SafeIsShaped(p);
    PlacementIsComplete(p, p.groups[i].dim);
    PlaceIsSafe(p, i, o);
    LaunchIsSafe(Place(p, i, o), i);
    LaunchChanges(Place(p, i, o), i);
  }

  // The shortcut launches exactly the same groups at the same places, and stops
  // at the same failed launch.
  lemma {:induction false} ShortcutIsSound(p: Pod, i: nat, lastFailed: Coord)
    requires Safe(p) && NoneEmpty(p)
    requires lastFailed == Coord(0, 0) || Placement(p, lastFailed).None?
    ensures Pass(p, i, lastFailed) == PlainPass(p, i)
    decreases |p.groups| - i
  {
    hide Launch, Safe, Placement;
    SafeIsShaped(p);
    if i < |p.groups| {
      var g := p.groups[i];
      if !g.status.Initialized? {
        ShortcutIsSound(p, i + 1, lastFailed);
      } else {
        match Placement(p, g.dim) {
          case None => ShortcutIsSound(p, i + 1, if lastFailed == g.dim then lastFailed else g.dim);
          case Some(o) =>
            LaunchStep(p, i, o);
            var q := Launch(Place(p, i, o), i);
            if lastFailed != Coord(0, 0) { BusierHasNoNewPlace(p, q, lastFailed); }
            if q.groups[i].status.Launched? { ShortcutIsSound(q, i + 1, lastFailed); }
        }
      }
    }
  }

  ghost predicate Started(p: Pod, g: Group, h: Group) {
    && g.status.Initialized? && h.Active() && Fits(p.mesh, g.dim)
    && h.finishEpa == g.finishEpa && h.kernel == g.kernel && h.dim == g.dim && h.id == g.id && h.gridDim == g.gridDim
  }

  // What a pass may change: tiles turn busy, waiting groups get a place.
  ghost predicate Advances(p: Pod, q: Pod) {
    && OnlyBusier(p, q) && |q.groups| == |p.groups|
    && forall j :: 0 <= j < |p.groups| ==>
         q.groups[j] == p.groups[j] || Started(p, p.groups[j], q.groups[j])
  }

  lemma AdvancesTransitively(p: Pod, q: Pod, r: Pod)
    requires Advances(p, q) && Advances(q, r)
    ensures Advances(p, r)
  {
  }

  lemma {:induction false} PassIsSafe(p: Pod, i: nat, lastFailed: Coord)
    requires Safe(p) && NoneEmpty(p)
    ensures var q := Pass(p, i, lastFailed); Safe(q) && NoneEmpty(q) && Advances(p, q)
    decreases |p.groups| - i
  {
    hide Launch, Safe, Placement;
    SafeIsShaped(p);
    if i < |p.groups| {
      var g := p.groups[i];
      if !g.status.Initialized? || lastFailed == g.dim {
        PassIsSafe(p, i + 1, lastFailed);
      } else {
        match Placement(p, g.dim) {
          case None => PassIsSafe(p, i + 1, g.dim);
          case Some(o) =>
            LaunchStep(p, i, o);
            var q := Launch(Place(p, i, o), i);
            if q.groups[i].status.Launched? {
              SafeIsShaped(q);
              PassIsSafe(q, i + 1, lastFailed);
              AdvancesTransitively(p, q, Pass(q, i + 1, lastFailed));
            }
        }
      }
    }
  }

  lemma SafeIsShaped(p: Pod)
    requires Safe(p)
    ensures Shaped(p) && KernelsKnown(p)
  {
  }

  // The waiting groups among the first n have no free place.
  ghost predicate NoRoom(p: Pod, n: nat)
    requires Shaped(p)
  {
    forall j :: 0 <= j < n && j < |p.groups| && p.groups[j].status.Initialized? ==> Placement(p, p.groups[j].dim).None?
  }

  // A pass either stops at a failed launch, or leaves no waiting group a free
  // place.
  lemma {:induction false} PassIsExhaustive(p: Pod, i: nat)
    requires Safe(p) && NoneEmpty(p) && NoRoom(p, i)
    ensures var q := PlainPass(p, i); Shaped(q) && (Stopped(q) || NoRoom(q, |q.groups|))
    decreases |p.groups| - i
  {
    hide Launch, Safe, Placement;
    SafeIsShaped(p);
    if i < |p.groups| {
      var g := p.groups[i];
      if !g.status.Initialized? || Placement(p, g.dim).None? {
        assert NoRoom(p, i + 1);
        PassIsExhaustive(p, i + 1);
      } else {
        var o := Placement(p, g.dim).value;
        LaunchStep(p, i, o);
        StillNoRoom(p, i, o);
        if Launch(Place(p, i, o), i).groups[i].status.Launched? { PassIsExhaustive(Launch(Place(p, i, o), i), i + 1); }
      }
    }
  }

  // Groups already passed over still have no place after another launch.
  lemma StillNoRoom(p: Pod, i: nat, o: Coord)
    requires Safe(p) && NoneEmpty(p) && i < |p.groups| && p.groups[i].status.Initialized?
    requires Placement(p, p.groups[i].dim) == Some(o) && NoRoom(p, i)
    ensures var q := Launch(Place(p, i, o), i); Shaped(q) && NoRoom(q, i + 1)
  {
    hide Launch, Safe, Placement;
    SafeIsShaped(p);
    LaunchStep(p, i, o);
    var q := Launch(Place(p, i, o), i);
    SafeIsShaped(q);
    forall j | 0 <= j < i && q.groups[j].status.Initialized? ensures Placement(q, q.groups[j].dim).None? {
      BusierHasNoNewPlace(p, q, p.groups[j].dim);
    }
  }

  // A mesh with no group on it has room for any shape that fits.
  lemma IdleMeshHasRoom(p: Pod, d: Coord)
    requires Safe(p) && Fits(p.mesh, d)
    requires forall i :: 0 <= i < |p.groups| ==> !p.groups[i].Active()
    ensures Placement(p, d).Some?
  {
    PlacementIsComplete(p, d);
    forall t | 0 <= t < |p.tiles| ensures p.tiles[t].status.Free? {
      BusyTileHasOneOwner(p, t);
    }
    assert RectInMesh(p.mesh, p.mesh.origin, d) && RectFree(p, p.mesh.origin, d);
  }

  // A pass does not change what a pod was set up with, nor its kernels.
  lemma {:induction false} PassKeepsSetup(p: Pod, i: nat, lastFailed: Coord)
    requires Shaped(p) && KernelsKnown(p)
    ensures var q := Pass(p, i, lastFailed);
      q.mesh == p.mesh && q.region == p.region && q.tr == p.tr && q.barrierUsed == p.barrierUsed
      && q.ruche == p.ruche && q.kernels == p.kernels
    decreases |p.groups| - i
  {
    hide Launch, Placement;
    if i < |p.groups| {
      var g := p.groups[i];
      if !g.status.Initialized? || lastFailed == g.dim {
        PassKeepsSetup(p, i + 1, lastFailed);
      } else {
        match Placement(p, g.dim) {
          case None => PassKeepsSetup(p, i + 1, g.dim);
          case Some(o) =>
            var q := Launch(Place(p, i, o), i);
            LaunchChanges(Place(p, i, o), i);
            if q.groups[i].status.Launched? { PassKeepsSetup(q, i + 1, lastFailed); }
        }
      }
    }
  }
}
