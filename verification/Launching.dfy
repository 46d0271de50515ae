// When launches succeed: exactly if memory holds the group's buffers.
module Launching {
  import opened Bits
  import opened Coordinates
  import opened TileGroups
  import opened Resources
  import EvaCopy
  import MM = MemoryManager

  // The memory manager is sound, and the host can write all of its region.
  ghost predicate Usable(p: Pod) {
    && MM.Valid(p.region, p.mem) && Aligned(p.region.alignment, 4)
    && EvaCopy.Mapped(p.tr, p.region.start, p.region.size)
  }

  // A listed hole holds the rounded request.
  ghost predicate HoleFor(r: MM.Region, s: MM.State, n: nat) {
    exists i :: 0 <= i < |s.free| && s.free[i].size >= MM.RoundUp(n, r.alignment)
  }

  // A buffer can be filled exactly when it was obtained, or has no bytes.
  lemma BufferFillsExactly(p: Pod, mem: MM.State, n: nat)
    requires Usable(p.(mem := mem)) && n % 4 == 0
    ensures Copies(p, MM.PodMalloc(p.region, mem, n).2, n) <==> n == 0 || HoleFor(p.region, mem, n)
  {
    hide MM.Valid, MM.RoundUp;
    MM.PodMallocNeverReportsNoMem(p.region, mem, n);
    MM.AllocIsSound(p.region, mem, n);
    var (t, a) := MM.AllocResult(p.region, mem, n);
    if a != MM.NULL {
      MM.AllocIsNew(p.region, mem, n);
      MM.AlignedToWords(a, p.region.alignment);
    }
  }

  ghost function AfterArguments(p: Pod, i: nat): MM.State
    requires i < |p.groups| && p.groups[i].kernel < |p.kernels|
  {
    MM.PodMalloc(p.region, p.mem, ArgumentBytes(p, p.groups[i])).0
  }

  // A launch starts the group exactly when a hole holds its arguments, if it has
  // any, and then a hole holds its barrier words, if the program uses them.
  lemma LaunchSucceedsExactly(p: Pod, i: nat)
    requires Usable(p) && i < |p.groups| && p.groups[i].kernel < |p.kernels| && !p.groups[i].status.Launched?
    ensures Launch(p, i).groups[i].status.Launched? <==>
      && (ArgumentBytes(p, p.groups[i]) == 0 || HoleFor(p.region, p.mem, ArgumentBytes(p, p.groups[i])))
      && (p.barrierUsed ==> HoleFor(p.region, AfterArguments(p, i), BarrierBytes(p.groups[i].dim)))
  {
    hide MM.PodMalloc, Copies, HoleFor, MM.Valid;
    var n := ArgumentBytes(p, p.groups[i]);
    MallocEffect(p.region, p.mem, n);
    BufferFillsExactly(p, p.mem, n);
    BufferFillsExactly(p, AfterArguments(p, i), BarrierBytes(p.groups[i].dim));
  }

  // What a launch obtains and records, whether it starts the group or not: the
  // arguments' buffer always, and the barrier's once the arguments have been copied.
  lemma LaunchObtains(p: Pod, i: nat)
    requires i < |p.groups| && p.groups[i].kernel < |p.kernels| && !p.groups[i].status.Launched?
    ensures var g, q := p.groups[i], Launch(p, i); var h, n := q.groups[i], ArgumentBytes(p, g);
      var (mem, _, argv) := MM.PodMalloc(p.region, p.mem, n);
      var (mem', _, bar) := MM.PodMalloc(p.region, mem, 4 * (1 + g.dim.x * g.dim.y));
      && h.argv == argv
      && q.mem == (if p.barrierUsed && Copies(p, argv, n) then mem' else mem)
      && h.barcfg == (if !h.status.Launched? then g.barcfg else if p.barrierUsed then bar else 0)
  {
    hide MM.PodMalloc, Copies;
  }

  // A group whose launch failed, and what no hole is large enough for.
  ghost predicate Starved(q: Pod, i: nat) {
    && i < |q.groups| && q.groups[i].status.Allocated? && q.groups[i].kernel < |q.kernels|
    && ((ArgumentBytes(q, q.groups[i]) > 0 && !HoleFor(q.region, q.mem, ArgumentBytes(q, q.groups[i])))
        || (q.barrierUsed && !HoleFor(q.region, q.mem, BarrierBytes(q.groups[i].dim))))
  }

  lemma FailedLaunchIsStarved(p: Pod, i: nat)
    requires Usable(p) && i < |p.groups| && p.groups[i].kernel < |p.kernels| && p.groups[i].status.Allocated?
    requires !Launch(p, i).groups[i].status.Launched?
    ensures Starved(Launch(p, i), i)
  {
    hide HoleFor, MM.Valid, MM.RoundUp, Copies;
    var n, bar := ArgumentBytes(p, p.groups[i]), BarrierBytes(p.groups[i].dim);
    var mem := AfterArguments(p, i);
    MallocEffect(p.region, p.mem, n);
    BufferFillsExactly(p, p.mem, n);
    BufferFillsExactly(p, mem, bar);
    NothingObtained(p.region, p.mem, n);
    NothingObtained(p.region, mem, bar);
  }

  lemma NothingObtained(r: MM.Region, s: MM.State, n: nat)
    requires MM.Valid(r, s)
    ensures !HoleFor(r, s, n) ==> MM.PodMalloc(r, s, n).0 == s
  {
    hide MM.Valid, MM.RoundUp;
    MM.AllocIsSound(r, s, n);
  }

  // Two buffers obtained one after the other lie in the region, word aligned, and
  // have no address in common.
  lemma BuffersApart(r: MM.Region, s: MM.State, m: nat, n: nat)
    requires MM.Valid(r, s) && Aligned(r.alignment, 4)
    ensures var (t, _, a) := MM.PodMalloc(r, s, m); var (_, _, b) := MM.PodMalloc(r, t, n);
      && (a == 0xFFFF_FFFF || (a % 4 == 0 && r.start <= a && a + m <= r.start + r.size))
      && (b == 0xFFFF_FFFF || (b % 4 == 0 && r.start <= b && b + n <= r.start + r.size))
      && (a == 0xFFFF_FFFF || b == 0xFFFF_FFFF || a + m <= b || b + n <= a)
  {
    hide MM.Valid, MM.RoundUp;
    OneBuffer(r, s, m);
    var t := MM.PodMalloc(r, s, m).0;
    OneBuffer(r, t, n);
  }

  // A buffer lies in the region, and apart from all blocks in use.
  lemma OneBuffer(r: MM.Region, s: MM.State, n: nat)
    requires MM.Valid(r, s) && Aligned(r.alignment, 4)
    ensures var (t, _, a) := MM.PodMalloc(r, s, n);
      && MM.Valid(r, t)
      && (a == 0xFFFF_FFFF || (
            && a % 4 == 0 && r.start <= a && a + n <= r.start + r.size
            && |t.busy| == |s.busy| + 1 && t.busy[|s.busy|].addr == a && t.busy[|s.busy|].size >= n
            && forall i :: 0 <= i < |s.busy| ==> s.busy[i].addr + s.busy[i].size <= a || a + n <= s.busy[i].addr))
  {
    hide MM.Valid, MM.RoundUp;
    MM.AllocIsSound(r, s, n);
    var (t, a) := MM.AllocResult(r, s, n);
    if a != MM.NULL {
      MM.AllocIsNew(r, s, n);
      MM.AlignedToWords(a, r.alignment);
      assert t.busy == s.busy + [MM.Block(a, MM.RoundUp(n, r.alignment))];
    }
  }

  // ---------------------------------------------------------------- whole passes

  // A pass that stops leaves a starved group.
  lemma {:induction false} StoppedPassIsStarved(p: Pod, i: nat, lastFailed: Coord)
    requires Safe(p) && NoneEmpty(p) && Usable(p) && !Stopped(p) && Stopped(Pass(p, i, lastFailed))
    ensures exists j: nat :: Starved(Pass(p, i, lastFailed), j)
    decreases |p.groups| - i
  {
    hide Launch, Safe, Placement, Usable, Starved;
    SafeIsShaped(p);
    if i < |p.groups| {
      var g := p.groups[i];
      if !g.status.Initialized? || lastFailed == g.dim {
        StoppedPassIsStarved(p, i + 1, lastFailed);
      } else {
        match Placement(p, g.dim) {
          case None => StoppedPassIsStarved(p, i + 1, g.dim);
          case Some(o) =>
            LaunchStep(p, i, o);
            PlacedIsUsable(p, i, o);
            LaunchIsUsable(Place(p, i, o), i);
            LaunchChanges(Place(p, i, o), i);
            var q := Launch(Place(p, i, o), i);
            if q.groups[i].status.Launched? {
              StillRunning(p, q, i);
              StoppedPassIsStarved(q, i + 1, lastFailed);
            } else {
              FailedLaunchIsStarved(Place(p, i, o), i);
            }
        }
      }
    }
  }

  lemma StillRunning(p: Pod, q: Pod, i: nat)
    requires !Stopped(p) && i < |p.groups| == |q.groups| && q.groups[i].status.Launched?
    requires forall j :: 0 <= j < |p.groups| && j != i ==> q.groups[j] == p.groups[j]
    ensures !Stopped(q)
  {
  }

  lemma PlacedIsUsable(p: Pod, i: nat, o: Coord)
    requires i < |p.groups| && p.mesh.dim.y > 0 && Usable(p)
    ensures Usable(Place(p, i, o))
  {
  }

  lemma LaunchIsUsable(p: Pod, i: nat)
    requires Usable(p) && i < |p.groups| && p.groups[i].kernel < |p.kernels|
    ensures Usable(Launch(p, i))
  {
    LaunchKeepsMemory(p, i);
    LaunchChanges(p, i);
    hide Launch;
  }

  // ---------------------------------------------------------------- enough memory

  /** What launching a group takes from the free list at most. */
  ghost function Need(p: Pod, g: Group): nat
    requires g.kernel < |p.kernels|
  {
    MM.RoundUp(ArgumentBytes(p, g), p.region.alignment)
    + if p.barrierUsed then MM.RoundUp(BarrierBytes(g.dim), p.region.alignment) else 0
  }

  ghost function Want(p: Pod, g: Group): nat
    requires g.kernel < |p.kernels|
  {
    if g.status.Initialized? then Need(p, g) else 0
  }

  /** What launching all waiting groups takes. */
  ghost function Demand(p: Pod, gs: seq<Group>): nat
    requires forall i :: 0 <= i < |gs| ==> gs[i].kernel < |p.kernels|
  {
    if gs == [] then 0 else Want(p, gs[0]) + Demand(p, gs[1..])
  }

  // A condition a caller can check: one hole holds all that waiting groups need.
  ghost predicate Enough(p: Pod) {
    Usable(p) && KernelsKnown(p) && MM.HasHole(p.mem.free, Demand(p, p.groups))
  }

  lemma {:induction false} DemandAfter(p: Pod, q: Pod, gs: seq<Group>, hs: seq<Group>, i: nat)
    requires i < |gs| == |hs|
    requires forall j :: 0 <= j < |gs| ==> gs[j].kernel < |p.kernels| && hs[j].kernel < |q.kernels|
    requires forall j :: 0 <= j < |gs| && j != i ==> Want(q, hs[j]) == Want(p, gs[j])
    ensures Demand(q, hs) + Want(p, gs[i]) == Demand(p, gs) + Want(q, hs[i])
  {
    hide Want;
    if i == 0 {
      DemandSame(p, q, gs[1..], hs[1..]);
    } else {
      DemandAfter(p, q, gs[1..], hs[1..], i - 1);
    }
  }

  lemma {:induction false} DemandSame(p: Pod, q: Pod, gs: seq<Group>, hs: seq<Group>)
    requires |gs| == |hs|
    requires forall j :: 0 <= j < |gs| ==> gs[j].kernel < |p.kernels| && hs[j].kernel < |q.kernels|
    requires forall j :: 0 <= j < |gs| ==> Want(q, hs[j]) == Want(p, gs[j])
    ensures Demand(q, hs) == Demand(p, gs)
  {
    hide Want;
    if gs != [] { DemandSame(p, q, gs[1..], hs[1..]); }
  }

  // With enough memory the launch of a placed group succeeds and leaves enough
  // for the others.
  lemma EnoughToLaunch(p: Pod, i: nat, o: Coord)
    requires Shaped(p) && Enough(p) && i < |p.groups| && p.groups[i].status.Initialized?
    ensures var q := Launch(Place(p, i, o), i); q.groups[i].status.Launched? && Enough(q)
  {
    hide MM.Valid, MM.RoundUp, MM.HasHole, EvaCopy.Mapped;
    var pp := Place(p, i, o);
    var n, bar := ArgumentBytes(pp, pp.groups[i]), BarrierBytes(p.groups[i].dim);
    var q := Launch(pp, i);
    var rest := Demand(p, p.groups) - Need(p, p.groups[i]);
    assert rest >= 0 && Demand(q, q.groups) == rest by { LaunchTakes(p, i, o); }
    var left := rest + if p.barrierUsed then MM.RoundUp(bar, p.region.alignment) else 0;
    Obtained(p.region, p.mem, n, left);
    BufferFillsExactly(pp, p.mem, n);
    LaunchKeepsMemory(pp, i);
    if p.barrierUsed {
      var mem := MM.PodMalloc(p.region, p.mem, n).0;
      MallocEffect(p.region, p.mem, n);
      Obtained(p.region, mem, bar, rest);
      BufferFillsExactly(pp, mem, bar);
    }
  }

  lemma LaunchTakes(p: Pod, i: nat, o: Coord)
    requires Shaped(p) && KernelsKnown(p) && i < |p.groups| && p.groups[i].status.Initialized?
    ensures var q := Launch(Place(p, i, o), i);
      KernelsKnown(q) && Demand(q, q.groups) + Need(p, p.groups[i]) == Demand(p, p.groups)
  {
    LaunchChanges(Place(p, i, o), i);
    hide Launch, MM.RoundUp;
    var q := Launch(Place(p, i, o), i);
    DemandAfter(p, q, p.groups, q.groups, i);
  }

  // A large enough hole is there, and what the request leaves of it.
  lemma Obtained(r: MM.Region, s: MM.State, n: nat, rest: nat)
    requires MM.Valid(r, s) && MM.HasHole(s.free, MM.RoundUp(n, r.alignment) + rest)
    ensures HoleFor(r, s, n) && MM.HasHole(MM.PodMalloc(r, s, n).0.free, rest)
  {
    hide MM.Valid, MM.RoundUp;
    MM.RoundUpIsLeast(n, r.alignment);
    MM.AllocKeepsHole(r, s, n, rest);
  }

  // A pass with enough memory does not stop, and leaves enough.
  lemma {:induction false} PassKeepsEnough(p: Pod, i: nat, lastFailed: Coord)
    requires Safe(p) && NoneEmpty(p) && Enough(p) && !Stopped(p)
    ensures var q := Pass(p, i, lastFailed); Enough(q) && !Stopped(q)
    decreases |p.groups| - i
  {
    hide Launch, Safe, Placement, Enough;
    SafeIsShaped(p);
    if i < |p.groups| {
      var g := p.groups[i];
      if !g.status.Initialized? || lastFailed == g.dim {
        PassKeepsEnough(p, i + 1, lastFailed);
      } else {
        match Placement(p, g.dim) {
          case None => PassKeepsEnough(p, i + 1, g.dim);
          case Some(o) =>
            LaunchStep(p, i, o);
            EnoughToLaunch(p, i, o);
            var q := Launch(Place(p, i, o), i);
            StillRunning(p, q, i);
            PassKeepsEnough(q, i + 1, lastFailed);
        }
      }
    }
  }

  // So does a finish.
  lemma RetireKeepsEnough(p: Pod, i: nat)
    requires Shaped(p) && Counted(p) && Enough(p) && i < |p.groups| && p.groups[i].status.Launched?
    ensures Enough(Retire(p, i))
  {
    hide MM.Valid, MM.HasHole, EvaCopy.Mapped, MM.RoundUp, MM.FreeResult;
    var q := Retire(p, i);
    var g := p.groups[i];
    MM.FreeIsSound(p.region, p.mem, g.argv);
    MM.FreeIsSound(p.region, MM.FreeResult(p.mem, g.argv), g.barcfg);
    forall j | 0 <= j < |p.groups| && j != i ensures Want(q, q.groups[j]) == Want(p, p.groups[j]) {
      if p.groups[j].status.Initialized? && p.groups[j].kernel == g.kernel {
        TwoReferences(p.groups, i, j);
      }
    }
    DemandAfter(p, q, p.groups, q.groups, i);
    MM.FreeKeepsHole(p.mem, g.argv, Demand(p, p.groups));
    MM.FreeKeepsHole(MM.FreeResult(p.mem, g.argv), g.barcfg, Demand(p, p.groups));
  }

  // Two unfinished groups of a kernel hold two references.
  lemma TwoReferences(gs: seq<Group>, i: nat, j: nat)
    requires i < |gs| && j < |gs| && i != j && gs[i].Unfinished() && gs[j].Unfinished() && gs[i].kernel == gs[j].kernel
    ensures References(gs, gs[i].kernel) >= 2
  {
    var hs := gs[i := gs[i].(status := Finished)];
    UpdateCounts(gs, i, hs[i], gs[i].kernel);
    ReferencesBounded(hs, j);
  }
}
