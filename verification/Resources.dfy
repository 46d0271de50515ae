// What a pod's groups hold: references to kernels and buffers in device memory.
module Resources {
  import opened Bits
  import opened Coordinates
  import opened TileGroups
  import MM = MemoryManager

  // ---------------------------------------------------------------- counting

  ghost predicate Holds(g: Group, k: nat) { g.Unfinished() && g.kernel == k }

  /** Unfinished groups that run kernel k. */
  ghost function References(gs: seq<Group>, k: nat): nat {
    if gs == [] then 0 else (if Holds(gs[0], k) then 1 else 0) + References(gs[1..], k)
  }

  /** All unfinished groups. */
  ghost function Remaining(gs: seq<Group>): nat {
    if gs == [] then 0 else (if gs[0].Unfinished() then 1 else 0) + Remaining(gs[1..])
  }

  lemma {:induction false} UpdateCounts(gs: seq<Group>, i: nat, g: Group, k: nat)
    requires i < |gs|
    ensures References(gs[i := g], k) + (if Holds(gs[i], k) then 1 else 0)
         == References(gs, k) + (if Holds(g, k) then 1 else 0)
    ensures Remaining(gs[i := g]) + (if gs[i].Unfinished() then 1 else 0)
         == Remaining(gs) + (if g.Unfinished() then 1 else 0)
  {
    if i == 0 {
      assert gs[i := g][1..] == gs[1..];
    } else {
      UpdateCounts(gs[1..], i - 1, g, k);
      assert gs[i := g][1..] == gs[1..][i - 1 := g];
    }
  }

  lemma {:induction false} AppendCounts(gs: seq<Group>, g: Group, k: nat)
    ensures References(gs + [g], k) == References(gs, k) + (if Holds(g, k) then 1 else 0)
    ensures Remaining(gs + [g]) == Remaining(gs) + (if g.Unfinished() then 1 else 0)
  {
    if gs == [] {
      assert gs + [g] == [g];
    } else {
      AppendCounts(gs[1..], g, k);
      assert (gs + [g])[1..] == gs[1..] + [g];
    }
  }

  lemma {:induction false} CountsAreZero(gs: seq<Group>, k: nat)
    requires forall i :: 0 <= i < |gs| ==> gs[i].status.Finished?
    ensures References(gs, k) == 0 && Remaining(gs) == 0
  {
    if gs != [] { CountsAreZero(gs[1..], k); }
  }

  lemma {:induction false} ZeroMeansFinished(gs: seq<Group>)
    requires Remaining(gs) == 0
    ensures forall i :: 0 <= i < |gs| ==> gs[i].status.Finished?
  {
    if gs != [] {
      ZeroMeansFinished(gs[1..]);
      forall i | 0 <= i < |gs| ensures gs[i].status.Finished? {
        if i > 0 { assert gs[i] == gs[1..][i - 1]; }
      }
    }
  }

  lemma {:induction false} ReferencesBounded(gs: seq<Group>, i: nat)
    requires i < |gs| && gs[i].Unfinished()
    ensures References(gs, gs[i].kernel) >= 1
  {
    if i > 0 { ReferencesBounded(gs[1..], i - 1); }
  }

  // ---------------------------------------------------------------- invariants

  // A kernel's reference count is the number of its unfinished groups, and it
  // has been cleaned up exactly once when that number is zero, else never.
  ghost predicate Counted(p: Pod) {
    KernelsKnown(p)
    && forall k :: 0 <= k < |p.kernels| ==>
         && p.kernels[k].refcount == References(p.groups, k)
         && p.kernels[k].exits == if References(p.groups, k) == 0 then 1 else 0
  }

  ghost predicate AddrOf(g: Group, a: nat) { g.argv == a || g.barcfg == a }

  ghost predicate Owned(gs: seq<Group>, a: nat) {
    exists i :: 0 <= i < |gs| && gs[i].status.Launched? && AddrOf(gs[i], a)
  }

  ghost predicate Avoids(base: seq<MM.Block>, a: nat) {
    forall n :: 0 <= n < |base| ==> base[n].addr != a
  }

  // The busy list is what the program held before, followed by blocks that
  // launched groups own.
  ghost predicate Held(p: Pod, base: seq<MM.Block>) {
    && MM.Valid(p.region, p.mem) && Aligned(p.region.alignment, 4)
    && base <= p.mem.busy
    && (forall b :: b in p.mem.busy[|base|..] ==> Owned(p.groups, b.addr))
    && (forall i :: 0 <= i < |p.groups| && p.groups[i].status.Launched? ==>
          Avoids(base, p.groups[i].argv) && Avoids(base, p.groups[i].barcfg))
  }

  ghost predicate Live(s: MM.State, a: nat) {
    exists n :: 0 <= n < |s.busy| && s.busy[n].addr == a
  }

  // Addresses that stand for "no buffer": no barrier, or nothing was left.
  predicate Missing(a: nat) { a == 0 || a == 0xFFFF_FFFF }

  ghost predicate OwnBuffers(s: MM.State, g: Group) {
    && (Missing(g.argv) || Live(s, g.argv)) && (Missing(g.barcfg) || Live(s, g.barcfg))
    && (g.argv == g.barcfg ==> Missing(g.argv))
  }

  ghost predicate Unshared(g: Group, h: Group) {
    (AddrOf(h, g.argv) ==> Missing(g.argv)) && (AddrOf(h, g.barcfg) ==> Missing(g.barcfg))
  }

  // Every launched group's buffers are live, and no two groups share one.
  ghost predicate BuffersLive(p: Pod) {
    && (forall i :: 0 <= i < |p.groups| && p.groups[i].status.Launched? ==> OwnBuffers(p.mem, p.groups[i]))
    && (forall i, j :: 0 <= i < j < |p.groups| && p.groups[i].status.Launched? && p.groups[j].status.Launched? ==>
          Unshared(p.groups[i], p.groups[j]))
  }

  ghost predicate Accounted(p: Pod, base: seq<MM.Block>) {
    Counted(p) && Held(p, base) && BuffersLive(p)
  }

  // ---------------------------------------------------------------- malloc, free

  // No block starts at an address that means "no buffer".
  lemma MissingIsNotLive(r: MM.Region, s: MM.State)
    requires MM.Valid(r, s) && Aligned(r.alignment, 4)
    ensures forall n :: 0 <= n < |s.busy| ==> !Missing(s.busy[n].addr)
  {
    MM.BlocksAreSeparate(r, s);
    forall n | 0 <= n < |s.busy| ensures !Missing(s.busy[n].addr) {
      assert MM.AlignedBlock(r, s.busy[n]) && MM.Inside(r, s.busy[n]);
      MM.AlignedToWords(s.busy[n].addr, r.alignment);
    }
  }

  // A pod allocation appends at most its own block, at an address that was not live.
  lemma MallocEffect(r: MM.Region, s: MM.State, size: nat)
    requires MM.Valid(r, s) && Aligned(r.alignment, 4)
    ensures var (t, _, a) := MM.PodMalloc(r, s, size);
      && MM.Valid(r, t)
      && s.busy <= t.busy && (forall b :: b in t.busy[|s.busy|..] ==> b.addr == a)
      && !Live(s, a)
      && (Missing(a) || Live(t, a))
  {
    MM.AllocIsSound(r, s, size);
    MissingIsNotLive(r, s);
    var (t, p) := MM.AllocResult(r, s, size);
    if p != MM.NULL {
      MM.AllocIsNew(r, s, size);
      assert t.busy[|s.busy|].addr == p;
      forall n | 0 <= n < |s.busy| ensures s.busy[n].addr != p { assert s.busy[n] in s.busy; }
    }
  }

  // Freeing removes the block at the address, wherever it is, and keeps the rest.
  lemma FreeEffect(r: MM.Region, s: MM.State, a: nat, base: seq<MM.Block>)
    requires MM.Valid(r, s) && base <= s.busy && Avoids(base, a)
    ensures var t := MM.FreeResult(s, a);
      && MM.Valid(r, t) && base <= t.busy
      && (forall b :: b in t.busy[|base|..] ==> b in s.busy[|base|..] && b.addr != a)
      && (forall b :: Live(t, b) <==> Live(s, b) && b != a)
  {
    MM.FreeIsSound(r, s, a);
    var t := MM.FreeResult(s, a);
    FreeKeepsPrefix(s, a, base);
    forall b | b in t.busy[|base|..] ensures b.addr != a { assert b in t.busy; }
    forall b ensures Live(t, b) <==> Live(s, b) && b != a {
      LiveIsMember(s, b);
      LiveIsMember(t, b);
    }
  }

  lemma FreeKeepsPrefix(s: MM.State, a: nat, base: seq<MM.Block>)
    requires base <= s.busy && Avoids(base, a)
    ensures var t := MM.FreeResult(s, a);
      base <= t.busy && forall b :: b in t.busy[|base|..] ==> b in s.busy[|base|..]
  {
    var t := MM.FreeResult(s, a);
    var i := MM.Find(s.busy, a);
    forall j | 0 <= j < |base| ensures s.busy[j].addr != a { assert s.busy[j] == base[j]; }
    if i < |s.busy| {
      var rest := s.busy[|base|..];
      assert t.busy[|base|..] == rest[..i - |base|] + rest[i - |base| + 1..];
    }
  }

  lemma LiveIsMember(s: MM.State, a: nat)
    ensures Live(s, a) <==> exists b :: b in s.busy && b.addr == a
  {
    if b :| b in s.busy && b.addr == a {
      var n :| 0 <= n < |s.busy| && s.busy[n] == b;
    }
  }

  // ---------------------------------------------------------------- launching

  // A launch that starts the group: its two addresses are new.
  lemma LaunchEffect(p: Pod, i: nat)
    requires MM.Valid(p.region, p.mem) && Aligned(p.region.alignment, 4)
    requires i < |p.groups| && p.groups[i].kernel < |p.kernels| && !p.groups[i].status.Launched?
    requires Launch(p, i).groups[i].status.Launched?
    ensures var q := Launch(p, i); var g := q.groups[i];
      && MM.Valid(q.region, q.mem)
      && p.mem.busy <= q.mem.busy
      && (forall b :: b in q.mem.busy[|p.mem.busy|..] ==> AddrOf(g, b.addr))
      && !Live(p.mem, g.argv) && !Live(p.mem, g.barcfg)
      && OwnBuffers(q.mem, g)
  {
    hide MM.PodMalloc, Copies;
    var argvSize, barrierSize := ArgumentBytes(p, p.groups[i]), BarrierBytes(p.groups[i].dim);
    MallocEffect(p.region, p.mem, argvSize);
    MissingIsNotLive(p.region, p.mem);
    TwoMallocs(p.region, p.mem, argvSize, barrierSize);
  }

  // The memory manager's invariant holds after any launch.
  lemma LaunchKeepsMemory(p: Pod, i: nat)
    requires MM.Valid(p.region, p.mem) && Aligned(p.region.alignment, 4)
    requires i < |p.groups| && p.groups[i].kernel < |p.kernels|
    ensures MM.Valid(p.region, Launch(p, i).mem)
  {
    hide MM.PodMalloc, MM.Valid, Copies;
    var argvSize, barrierSize := ArgumentBytes(p, p.groups[i]), BarrierBytes(p.groups[i].dim);
    MallocEffect(p.region, p.mem, argvSize);
    MallocEffect(p.region, MM.PodMalloc(p.region, p.mem, argvSize).0, barrierSize);
  }

  lemma TwoMallocs(r: MM.Region, s: MM.State, m: nat, n: nat)
    requires MM.Valid(r, s) && Aligned(r.alignment, 4)
    ensures var (t, _, a) := MM.PodMalloc(r, s, m); var (u, _, b) := MM.PodMalloc(r, t, n);
      && MM.Valid(r, u) && s.busy <= u.busy
      && (forall c :: c in u.busy[|s.busy|..] ==> c.addr == a || c.addr == b)
      && !Live(s, a) && !Live(s, b)
      && (Missing(a) || Live(u, a)) && (Missing(b) || Live(u, b)) && (a == b ==> Missing(a))
  {
    var (t, _, a) := MM.PodMalloc(r, s, m);
    MallocEffect(r, s, m);
    MallocEffect(r, t, n);
    var (u, _, b) := MM.PodMalloc(r, t, n);
    assert u.busy[|s.busy|..] == t.busy[|s.busy|..] + u.busy[|t.busy|..];
    LiveGrows(s, t);
    LiveGrows(t, u);
  }

  lemma LiveGrows(s: MM.State, t: MM.State)
    requires s.busy <= t.busy
    ensures forall a :: Live(s, a) ==> Live(t, a)
  {
    forall a | Live(s, a) ensures Live(t, a) {
      var n :| 0 <= n < |s.busy| && s.busy[n].addr == a;
      assert t.busy[n] == s.busy[n];
    }
  }

  lemma LaunchIsAccounted(p: Pod, base: seq<MM.Block>, i: nat, o: Coord)
    requires Shaped(p) && Accounted(p, base) && i < |p.groups| && p.groups[i].status.Initialized?
    requires Launch(Place(p, i, o), i).groups[i].status.Launched?
    ensures Accounted(Launch(Place(p, i, o), i), base)
  {
    LaunchEffect(Place(p, i, o), i);
    LaunchIsCounted(p, i, o);
    LaunchChanges(Place(p, i, o), i);
    hide Launch;
    var q := Launch(Place(p, i, o), i);
    LaunchIsHeld(p, q, base, i);
    LaunchIsLive(p, q, i);
  }

  // Reference counts are exact whether the group was started or not.
  lemma LaunchIsCounted(p: Pod, i: nat, o: Coord)
    requires Shaped(p) && Counted(p) && i < |p.groups| && p.groups[i].status.Initialized?
    ensures Counted(Launch(Place(p, i, o), i))
  {
    LaunchChanges(Place(p, i, o), i);
    hide Launch;
    var q := Launch(Place(p, i, o), i);
    assert q.groups == p.groups[i := q.groups[i]];
    forall k | 0 <= k < |q.kernels| ensures References(q.groups, k) == References(p.groups, k) {
      UpdateCounts(p.groups, i, q.groups[i], k);
    }
  }

  ghost predicate Launching(p: Pod, q: Pod, i: nat) {
    && i < |p.groups| && |q.groups| == |p.groups| && p.groups[i].status.Initialized?
    && q.groups == p.groups[i := q.groups[i]] && q.groups[i].status.Launched? && q.region == p.region
    && MM.Valid(q.region, q.mem)
    && p.mem.busy <= q.mem.busy
    && (forall b :: b in q.mem.busy[|p.mem.busy|..] ==> AddrOf(q.groups[i], b.addr))
    && !Live(p.mem, q.groups[i].argv) && !Live(p.mem, q.groups[i].barcfg) && OwnBuffers(q.mem, q.groups[i])
  }

  lemma LaunchIsHeld(p: Pod, q: Pod, base: seq<MM.Block>, i: nat)
    requires Held(p, base) && Launching(p, q, i)
    ensures Held(q, base)
  {
    assert q.mem.busy[|base|..] == p.mem.busy[|base|..] + q.mem.busy[|p.mem.busy|..];
    forall b | b in p.mem.busy[|base|..] ensures Owned(q.groups, b.addr) {
      StillOwned(p.groups, q.groups, i, b.addr);
    }
    forall n | 0 <= n < |base| ensures !AddrOf(q.groups[i], base[n].addr) {
      assert p.mem.busy[n] == base[n];
    }
  }

  // Only the owner can give up an address.
  lemma StillOwned(gs: seq<Group>, hs: seq<Group>, i: nat, a: nat)
    requires i < |gs| && Owned(gs, a) && |hs| == |gs| && hs == gs[i := hs[i]]
    requires !gs[i].status.Launched? || !AddrOf(gs[i], a)
    ensures Owned(hs, a)
  {
    var j :| 0 <= j < |gs| && gs[j].status.Launched? && AddrOf(gs[j], a);
    assert hs[j] == gs[j];
  }

  lemma LaunchIsLive(p: Pod, q: Pod, i: nat)
    requires BuffersLive(p) && Launching(p, q, i)
    ensures BuffersLive(q)
  {
    LiveGrows(p.mem, q.mem);
    var g := q.groups[i];
    forall j | 0 <= j < |q.groups| && q.groups[j].status.Launched? ensures OwnBuffers(q.mem, q.groups[j]) {
      if j != i { assert OwnBuffers(p.mem, p.groups[j]); }
    }
    forall j | 0 <= j < |q.groups| && j != i && q.groups[j].status.Launched?
      ensures Unshared(q.groups[j], g) && Unshared(g, q.groups[j])
    {
      assert OwnBuffers(p.mem, p.groups[j]);
    }
  }

  lemma {:induction false} PassIsAccounted(p: Pod, base: seq<MM.Block>, i: nat, lastFailed: Coord)
    requires Safe(p) && NoneEmpty(p) && Accounted(p, base)
    ensures var q := Pass(p, i, lastFailed); Stopped(q) || Accounted(q, base)
    decreases |p.groups| - i
  {
    hide Launch, Safe, Placement, Accounted;
    SafeIsShaped(p);
    if i < |p.groups| {
      var g := p.groups[i];
      if !g.status.Initialized? || lastFailed == g.dim {
        PassIsAccounted(p, base, i + 1, lastFailed);
      } else {
        match Placement(p, g.dim) {
          case None => PassIsAccounted(p, base, i + 1, g.dim);
          case Some(o) =>
            LaunchStep(p, i, o);
            var q := Launch(Place(p, i, o), i);
            if q.groups[i].status.Launched? {
              LaunchIsAccounted(p, base, i, o);
              PassIsAccounted(q, base, i + 1, lastFailed);
            }
        }
      }
    }
  }

  // Even a pass that stops keeps counts exact and memory sound.
  lemma {:induction false} PassIsCounted(p: Pod, i: nat, lastFailed: Coord)
    requires Safe(p) && NoneEmpty(p) && Counted(p) && MM.Valid(p.region, p.mem) && Aligned(p.region.alignment, 4)
    ensures var q := Pass(p, i, lastFailed); Counted(q) && MM.Valid(q.region, q.mem) && q.region == p.region
    decreases |p.groups| - i
  {
    hide Launch, Safe, Placement, Counted, MM.Valid;
    SafeIsShaped(p);
    if i < |p.groups| {
      var g := p.groups[i];
      if !g.status.Initialized? || lastFailed == g.dim {
        PassIsCounted(p, i + 1, lastFailed);
      } else {
        match Placement(p, g.dim) {
          case None => PassIsCounted(p, i + 1, g.dim);
          case Some(o) =>
            LaunchStep(p, i, o);
            LaunchIsCounted(p, i, o);
            LaunchKeepsMemory(Place(p, i, o), i);
            LaunchChanges(Place(p, i, o), i);
            var q := Launch(Place(p, i, o), i);
            if q.groups[i].status.Launched? { PassIsCounted(q, i + 1, lastFailed); }
        }
      }
    }
  }

  lemma {:induction false} AdvanceKeepsCounts(gs: seq<Group>, hs: seq<Group>)
    requires |gs| == |hs|
    requires forall j :: 0 <= j < |gs| ==> (gs[j].Unfinished() <==> hs[j].Unfinished())
    ensures Remaining(gs) == Remaining(hs)
  {
    if gs != [] {
      forall j | 0 <= j < |gs[1..]| ensures gs[1..][j].Unfinished() <==> hs[1..][j].Unfinished() {
        assert gs[1..][j] == gs[j + 1] && hs[1..][j] == hs[j + 1];
      }
      AdvanceKeepsCounts(gs[1..], hs[1..]);
    }
  }

  // ---------------------------------------------------------------- retiring

  lemma RetireIsCounted(p: Pod, i: nat)
    requires Shaped(p) && Counted(p) && i < |p.groups| && p.groups[i].Unfinished()
    ensures Counted(Retire(p, i)) && Remaining(Retire(p, i).groups) == Remaining(p.groups) - 1
  {
    var q := Retire(p, i);
    var g := p.groups[i];
    ReferencesBounded(p.groups, i);
    forall k | 0 <= k < |q.kernels|
      ensures References(q.groups, k) == References(p.groups, k) - (if k == g.kernel then 1 else 0)
      ensures Remaining(q.groups) == Remaining(p.groups) - 1
    {
      UpdateCounts(p.groups, i, q.groups[i], k);
    }
    UpdateCounts(p.groups, i, q.groups[i], 0);
  }

  lemma RetireIsHeld(p: Pod, base: seq<MM.Block>, i: nat)
    requires Shaped(p) && KernelsKnown(p) && Held(p, base) && i < |p.groups| && p.groups[i].status.Launched?
    ensures Held(Retire(p, i), base)
  {
    var q := Retire(p, i);
    var g := p.groups[i];
    var mem := MM.FreeResult(p.mem, g.argv);
    FreeEffect(p.region, p.mem, g.argv, base);
    FreeEffect(p.region, mem, g.barcfg, base);
    forall b | b in q.mem.busy[|base|..] ensures Owned(q.groups, b.addr) {
      StillOwned(p.groups, q.groups, i, b.addr);
    }
  }

  lemma RetireIsLive(p: Pod, base: seq<MM.Block>, i: nat)
    requires Shaped(p) && KernelsKnown(p) && Held(p, base) && BuffersLive(p) && i < |p.groups| && p.groups[i].status.Launched?
    ensures BuffersLive(Retire(p, i))
  {
    var q := Retire(p, i);
    var g := p.groups[i];
    FreeEffect(p.region, p.mem, g.argv, base);
    FreeEffect(p.region, MM.FreeResult(p.mem, g.argv), g.barcfg, base);
    forall j | 0 <= j < |q.groups| && q.groups[j].status.Launched? ensures OwnBuffers(q.mem, q.groups[j]) {
      assert OwnBuffers(p.mem, p.groups[j]);
      if j < i { assert Unshared(p.groups[j], g); } else { assert Unshared(g, p.groups[j]); }
    }
  }

  lemma RetireIsAccounted(p: Pod, base: seq<MM.Block>, i: nat)
    requires Safe(p) && Accounted(p, base) && i < |p.groups| && p.groups[i].status.Launched?
    ensures Accounted(Retire(p, i), base) && Remaining(Retire(p, i).groups) == Remaining(p.groups) - 1
  {
    RetireIsCounted(p, i);
    RetireIsHeld(p, base, i);
    RetireIsLive(p, base, i);
  }

  lemma FirstIsMember(bs: seq<MM.Block>)
    requires bs != []
    ensures bs[0] in bs
  {
  }

  // Once no group is launched, the busy list and the byte total are exactly
  // what they were, and every kernel has been released exactly once.
  lemma AllReleased(p: Pod, base: seq<MM.Block>)
    requires Accounted(p, base)
    requires forall i :: 0 <= i < |p.groups| ==> p.groups[i].status.Finished?
    ensures p.mem.busy == base && p.mem.freeSize == p.region.size - MM.Total(base)
    ensures forall k :: 0 <= k < |p.kernels| ==> p.kernels[k].refcount == 0 && p.kernels[k].exits == 1
  {
    var extra := p.mem.busy[|base|..];
    if extra != [] {
      FirstIsMember(extra);
      assert false;
    }
    assert p.mem.busy == base + extra;
    forall k | 0 <= k < |p.kernels| ensures References(p.groups, k) == 0 {
      CountsAreZero(p.groups, k);
    }
  }
}
