// What is launched in the course of a run: each group once, with the arguments it
// was enqueued with.
module History {
  import opened Coordinates
  import opened TileGroups
  import opened Resources
  import opened Launching
  import opened LaunchData
  import opened RemoteRead
  import EvaCopy

  /** A group was started: its number, its buffers, and device memory at that time. */
  datatype Start = Start(group: nat, argv: nat, barcfg: nat, mem: Memory)

  // At its start a group's buffers hold the argument words of its kernel, and the
  // lock word and one control word per tile if the program uses the barrier.
  ghost predicate Supplied(p: Pod, s: Start) {
    && s.group < |p.groups| && p.groups[s.group].kernel < |p.kernels| && p.groups[s.group].dim.x > 0
    && EvaCopy.FlatHolds(p.tr, s.mem, s.argv, Bytes(p.kernels[p.groups[s.group].kernel].argv))
    && (p.barrierUsed ==>
          EvaCopy.FlatHolds(p.tr, s.mem, s.barcfg, Bytes(BarrierTable(p.ruche, p.groups[s.group].dim))))
  }

  // A group can only move on: it waits, is placed, runs, and has finished. Until it
  // has finished it keeps its place in the grid, its shape, its signal address and
  // the arguments of its kernel.
  ghost predicate MovesOn(p: Pod, q: Pod, j: nat)
    requires j < |p.groups| == |q.groups|
  {
    var g, h := p.groups[j], q.groups[j];
    && (h.status.Initialized? || g.status.Allocated? || g.status.Finished? ==> h == g)
    && (g.status.Launched? ==> h == g || h.status.Finished?)
    && (h.Unfinished() ==>
          && h.id == g.id && h.gridDim == g.gridDim && h.dim == g.dim && h.finishEpa == g.finishEpa
          && h.kernel == g.kernel && g.kernel < |p.kernels| && h.kernel < |q.kernels|
          && q.kernels[h.kernel].argv == p.kernels[g.kernel].argv)
  }

  ghost predicate SameSetup(p: Pod, q: Pod) {
    && q.mesh == p.mesh && q.region == p.region && q.tr == p.tr && q.barrierUsed == p.barrierUsed && q.ruche == p.ruche
    && |q.groups| == |p.groups|
  }

  // A group was waiting in p, ran or has run in q, and got what it needs.
  ghost predicate Began(p: Pod, q: Pod, s: Start)
    requires SameSetup(p, q)
  {
    && s.group < |p.groups| && p.groups[s.group].status.Initialized? && HasBegun(q.groups[s.group]) && Supplied(p, s)
  }

  ghost predicate HasBegun(g: Group) { g.status.Launched? || g.status.Finished? }

  ghost predicate Listed(log: seq<Start>, j: nat) { exists n :: 0 <= n < |log| && log[n].group == j }

  // The log names every group that began between p and q, once.
  ghost predicate Runs(p: Pod, q: Pod, log: seq<Start>) {
    && SameSetup(p, q)
    && (forall j: nat :: j < |p.groups| ==> MovesOn(p, q, j))
    && (forall n :: 0 <= n < |log| ==> Began(p, q, log[n]))
    && (forall n, m :: 0 <= n < m < |log| ==> log[n].group != log[m].group)
    && (forall j: nat :: j < |p.groups| && p.groups[j].status.Initialized? && HasBegun(q.groups[j]) ==> Listed(log, j))
  }

  lemma NothingBegan(p: Pod)
    requires KernelsKnown(p)
    ensures Runs(p, p, [])
  {
  }

  lemma RunsTransitively(p: Pod, q: Pod, r: Pod, a: seq<Start>, b: seq<Start>)
    requires Runs(p, q, a) && Runs(q, r, b)
    ensures Runs(p, r, a + b)
  {
    hide Supplied;
    forall j: nat | j < |p.groups| ensures MovesOn(p, r, j) {
      assert MovesOn(p, q, j) && MovesOn(q, r, j);
    }
    forall n | 0 <= n < |a + b| ensures Began(p, r, (a + b)[n]) {
      if n < |a| {
        assert Began(p, q, a[n]) && MovesOn(q, r, a[n].group);
      } else {
        assert Began(q, r, b[n - |a|]);
        LaterBegan(p, q, r, b[n - |a|]);
      }
    }
    forall n, m | 0 <= n < m < |a + b| ensures (a + b)[n].group != (a + b)[m].group {
      if n < |a| <= m { assert Began(p, q, a[n]) && Began(q, r, b[m - |a|]); }
    }
    forall j: nat | j < |p.groups| && p.groups[j].status.Initialized? && HasBegun(r.groups[j]) ensures Listed(a + b, j) {
      assert MovesOn(p, q, j) && MovesOn(q, r, j);
      if q.groups[j].status.Initialized? {
        var n :| 0 <= n < |b| && b[n].group == j;
        assert (a + b)[|a| + n].group == j;
      } else {
        var n :| 0 <= n < |a| && a[n].group == j;
        assert (a + b)[n].group == j;
      }
    }
  }

  // A group that was still waiting in q got the arguments it had in p.
  lemma LaterBegan(p: Pod, q: Pod, r: Pod, s: Start)
    requires SameSetup(p, q) && SameSetup(q, r) && Began(q, r, s) && MovesOn(p, q, s.group)
    ensures Began(p, r, s)
  {
  }

  // One launch: the group began, or it has its tiles and did not.
  lemma LaunchRuns(p: Pod, i: nat, o: Coord, s: Start)
    requires Shaped(p) && KernelsKnown(p) && i < |p.groups| && p.groups[i].status.Initialized?
    requires s.group == i
    requires Launch(Place(p, i, o), i).groups[i].status.Launched? ==> Supplied(p, s)
    ensures var q := Launch(Place(p, i, o), i); Runs(p, q, if q.groups[i].status.Launched? then [s] else [])
  {
    hide Supplied;
    LaunchChanges(Place(p, i, o), i);
    var q := Launch(Place(p, i, o), i);
    hide Launch;
    if q.groups[i].status.Launched? { assert [s][0].group == i; }
  }

  // A finish keeps the arguments for the groups that are left: as long as one of
  // them needs the kernel, it has a reference.
  lemma RetireRuns(p: Pod, i: nat)
    requires Shaped(p) && Counted(p) && i < |p.groups| && p.groups[i].status.Launched?
    ensures Runs(p, Retire(p, i), [])
  {
    var q := Retire(p, i);
    forall j: nat | j < |p.groups| ensures MovesOn(p, q, j) {
      if j != i && p.groups[j].Unfinished() && p.groups[j].kernel == p.groups[i].kernel {
        TwoReferences(p.groups, i, j);
      }
    }
  }

  // Every group that was waiting has been started once, with its own arguments, and
  // no other group has.
  ghost predicate EachOnce(p: Pod, log: seq<Start>) {
    && (forall n :: 0 <= n < |log| ==> WasWaiting(p, log[n]) && Supplied(p, log[n]))
    && (forall n, m :: 0 <= n < m < |log| ==> log[n].group != log[m].group)
    && (forall j: nat :: j < |p.groups| && p.groups[j].status.Initialized? ==> Listed(log, j))
  }

  ghost predicate WasWaiting(p: Pod, s: Start) { s.group < |p.groups| && p.groups[s.group].status.Initialized? }

  lemma FinishedRunsAll(p: Pod, q: Pod, log: seq<Start>)
    requires Runs(p, q, log) && forall j :: 0 <= j < |q.groups| ==> q.groups[j].status.Finished?
    ensures EachOnce(p, log)
  {
    hide Supplied;
    forall n | 0 <= n < |log| ensures WasWaiting(p, log[n]) && Supplied(p, log[n]) {
      assert Began(p, q, log[n]);
    }
  }
}
