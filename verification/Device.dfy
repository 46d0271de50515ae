// A device of several pods: launch, wait for finish packets in any order, repeat.
module Device {
  import opened Coordinates
  import opened TileGroups
  import opened Resources
  import opened Launching
  import opened PodGeometry
  import opened Execution
  import opened History
  import opened Runtime
  import EvaCopy
  import MM = MemoryManager

  type Bases = seq<seq<MM.Block>>
  type Logs = seq<seq<Start>>

  // A packet the host has to ignore: it does not carry the finish value, or no
  // launched group of the pod it comes from matches it.
  ghost predicate Unrelated(cfg: Geometry, pods: seq<Pod>, pkt: Packet)
    requires Valid(cfg)
  {
    pkt.data != FINISH_SIGNAL_VAL
    || (PodIndex(cfg, pkt.src) < |pods| && !HasMatch(pods[PodIndex(cfg, pkt.src)], pkt))
  }

  ghost predicate HasMatch(p: Pod, pkt: Packet) {
    exists i :: 0 <= i < |p.groups| && Matches(p.groups[i], pkt)
  }

  // A packet that some launched group sends when it ends.
  ghost predicate Genuine(pods: seq<Pod>, pkt: Packet) {
    exists k, i :: 0 <= k < |pods| && 0 <= i < |pods[k].groups| && Sends(pods[k].groups[i], pkt)
  }

  predicate Sends(g: Group, pkt: Packet) { g.status.Launched? && pkt == FinishPacket(g) }

  // One wait retires exactly one launched group, of the pod it reports.
  ghost predicate RetiresOne(before: seq<Pod>, after: seq<Pod>, k: nat) {
    && k < |before|
    && exists i :: 0 <= i < |before[k].groups| && RetiresGroup(before, after, k, i)
  }

  ghost predicate RetiresGroup(before: seq<Pod>, after: seq<Pod>, k: nat, i: nat) {
    && k < |before| && i < |before[k].groups| && before[k].groups[i].status.Launched?
    && before[k].groups[i].kernel < |before[k].kernels| && before[k].mesh.dim.y > 0
    && after == before[k := Retire(before[k], i)]
  }

  // ---------------------------------------------------------------- the run

  // Between two waits: every pod is ready; pods being run have a group running, or
  // only groups left that their mesh cannot hold; the others have nothing running.
  ghost predicate Between(cfg: Geometry, pods: seq<Pod>, bases: Bases, podv: set<nat>) {
    && AtHome(cfg, pods) && AllReady(pods, bases)
    && forall k :: 0 <= k < |pods| ==> if k in podv then Running(pods[k]) || AtRest(pods[k]) else !Running(pods[k])
  }

  ghost predicate AnyRunning(pods: seq<Pod>) { exists k :: 0 <= k < |pods| && Running(pods[k]) }

  // What passes and finishes keep of a pod: whether its groups fit the mesh,
  // whether memory is enough for the waiting ones, and whether the host can write
  // all of the pod's memory.
  ghost predicate PodKept(p: Pod, q: Pod) {
    (AllFit(p) <==> AllFit(q)) && (Ample(p) ==> Ample(q)) && (Usable(p) ==> Usable(q))
  }

  ghost predicate Ample(p: Pod) { Enough(p) && !Stopped(p) }

  // Pods that are not being run keep their state.
  ghost predicate Kept(before: seq<Pod>, after: seq<Pod>, podv: seq<nat>) {
    && |after| == |before|
    && forall k :: 0 <= k < |before| ==> PodKept(before[k], after[k]) && (k !in podv ==> after[k] == before[k])
  }

  // What was launched in between on every pod, from one list of logs to the next.
  ghost predicate Recorded(before: seq<Pod>, logs: Logs, after: seq<Pod>, logs': Logs) {
    && |before| == |logs| == |after| == |logs'|
    && forall k :: 0 <= k < |before| ==> logs[k] <= logs'[k] && Runs(before[k], after[k], logs'[k][|logs[k]|..])
  }

  lemma NothingRecorded(pods: seq<Pod>, logs: Logs)
    requires |pods| == |logs| && forall k :: 0 <= k < |pods| ==> KernelsKnown(pods[k])
    ensures Recorded(pods, logs, pods, logs)
  {
    hide KernelsKnown, Runs;
    forall k | 0 <= k < |pods| ensures Runs(pods[k], pods[k], logs[k][|logs[k]|..]) {
      assert logs[k][|logs[k]|..] == [];
      NothingBegan(pods[k]);
    }
  }

  // What any part of a run keeps, and what it has launched.
  ghost predicate Progress(before: seq<Pod>, logs: Logs, after: seq<Pod>, logs': Logs, podv: seq<nat>) {
    Kept(before, after, podv) && Recorded(before, logs, after, logs')
  }

  lemma NoProgress(pods: seq<Pod>, logs: Logs, podv: seq<nat>)
    requires |pods| == |logs| && forall k :: 0 <= k < |pods| ==> KernelsKnown(pods[k])
    ensures Progress(pods, logs, pods, logs, podv)
  {
    NoneChanged(pods, podv);
    NothingRecorded(pods, logs);
  }

  lemma ProgressStep(
    before: seq<Pod>, logs: Logs, pods: seq<Pod>, ls: Logs, k: nat, q: Pod, log: seq<Start>, podv: seq<nat>)
    requires Progress(before, logs, pods, ls, podv) && k in podv && k < |pods| && PodKept(pods[k], q)
    requires ls[k] <= log && Runs(pods[k], q, log[|ls[k]|..])
    ensures Progress(before, logs, pods[k := q], ls[k := log], podv)
  {
    hide PodKept, Runs;
    KeptStep(before, pods, podv, k, q);
    RecordedStep(before, logs, pods, ls, k, q, log);
  }

  lemma ProgressTransitively(a: seq<Pod>, la: Logs, b: seq<Pod>, lb: Logs, c: seq<Pod>, lc: Logs, podv: seq<nat>)
    requires Progress(a, la, b, lb, podv) && Progress(b, lb, c, lc, podv)
    ensures Progress(a, la, c, lc, podv)
  {
    hide PodKept, Runs;
    KeptTransitively(a, b, c, podv);
    RecordedTransitively(a, la, b, lb, c, lc);
  }

  lemma RecordedTransitively(a: seq<Pod>, la: Logs, b: seq<Pod>, lb: Logs, c: seq<Pod>, lc: Logs)
    requires Recorded(a, la, b, lb) && Recorded(b, lb, c, lc)
    ensures Recorded(a, la, c, lc)
  {
    hide Runs;
    forall k | 0 <= k < |a| ensures la[k] <= lc[k] && Runs(a[k], c[k], lc[k][|la[k]|..]) {
      RunsTransitively(a[k], b[k], c[k], lb[k][|la[k]|..], lc[k][|lb[k]|..]);
      assert lc[k][|la[k]|..] == lb[k][|la[k]|..] + lc[k][|lb[k]|..];
    }
  }

  // One pod goes on, the others stay.
  lemma RecordedStep(before: seq<Pod>, logs: Logs, pods: seq<Pod>, ls: Logs, k: nat, q: Pod, log: seq<Start>)
    requires Recorded(before, logs, pods, ls) && k < |pods| && ls[k] <= log && Runs(pods[k], q, log[|ls[k]|..])
    ensures Recorded(before, logs, pods[k := q], ls[k := log])
  {
    hide Runs;
    RunsTransitively(before[k], pods[k], q, ls[k][|logs[k]|..], log[|ls[k]|..]);
    assert log[|logs[k]|..] == ls[k][|logs[k]|..] + log[|ls[k]|..];
  }

  // A launch on pod k has failed: a group has its tiles, but no hole of the memory
  // is large enough for one of its buffers. The other pods are ready.
  ghost predicate FailedOn(pods: seq<Pod>, bases: Bases, k: nat) {
    && k < |pods| == |bases| && Stopped(pods[k]) && (Usable(pods[k]) ==> SomeStarved(pods[k]))
    && forall l :: 0 <= l < |pods| && l != k ==> Ready(pods[l], bases[l])
  }

  ghost predicate SomeStarved(p: Pod) { exists i: nat :: Starved(p, i) }

  lemma RetiresThis(before: seq<Pod>, after: seq<Pod>, k: nat, i: nat)
    requires k < |before| && Safe(before[k]) && i < |before[k].groups| && before[k].groups[i].status.Launched?
    requires after == before[k := Retire(before[k], i)]
    ensures RetiresOne(before, after, k)
  {
    assert RetiresGroup(before, after, k, i);
  }

  lemma RetireStep(cfg: Geometry, pods: seq<Pod>, bases: Bases, podv: set<nat>, k: nat, after: seq<Pod>)
    requires Between(cfg, pods, bases, podv) && RetiresOne(pods, after, k)
    ensures k in podv && k < |after| == |pods| == |bases| && Ready(after[k], bases[k])
    ensures Safe(after[k]) && NoneEmpty(after[k])
    ensures after == pods[k := after[k]] && after[k].mesh == pods[k].mesh && PodKept(pods[k], after[k])
    ensures TotalRemaining(after) == TotalRemaining(pods) - 1
  {
    var i :| 0 <= i < |pods[k].groups| && RetiresGroup(pods, after, k, i);
    assert Running(pods[k]);
    RetireIsReady(pods[k], bases[k], i);
    RetireIsKept(pods[k], bases[k], i);
    UpdateTotal(pods, k, after[k]);
  }

  lemma RetireIsKept(p: Pod, base: seq<MM.Block>, i: nat)
    requires Ready(p, base) && i < |p.groups| && p.groups[i].status.Launched?
    ensures PodKept(p, Retire(p, i))
  {
    hide MM.Valid, MM.FreeResult, BuffersLive, Held, AllFit, Enough;
    SafeIsShaped(p);
    RetireKeepsFit(p, i);
    if Enough(p) { RetireKeepsEnough(p, i); }
    if Usable(p) {
      MM.FreeIsSound(p.region, p.mem, p.groups[i].argv);
      MM.FreeIsSound(p.region, MM.FreeResult(p.mem, p.groups[i].argv), p.groups[i].barcfg);
    }
  }

  // What a launch pass on one ready pod gives: either a launch failed for want of
  // memory, or the pod is ready with something running or nothing left that fits.
  lemma LaunchGives(p: Pod, base: seq<MM.Block>)
    requires Ready(p, base)
    ensures Shaped(p) && KernelsKnown(p) && !Stopped(p)
    ensures var q := Pass0(p);
      && (if Stopped(q) then Usable(q) ==> SomeStarved(q) else Ready(q, base) && (Running(q) || AtRest(q)))
      && q.mesh == p.mesh && Remaining(q.groups) == Remaining(p.groups) && PodKept(p, q)
  {
    hide Safe, Accounted, Enough, Starved, Pass, AllFit, MM.Valid, EvaCopy.Mapped;
    SafeIsShaped(p);
    PassIsReady(p, base);
    PassMakesProgress(p);
    PassKeepsMemory(p, base);
    if Usable(p) && Stopped(Pass0(p)) { StoppedPassIsStarved(p, 0, Coord(0, 0)); }
    if Enough(p) { PassKeepsEnough(p, 0, Coord(0, 0)); }
  }

  lemma PassKeepsMemory(p: Pod, base: seq<MM.Block>)
    requires Ready(p, base)
    ensures Shaped(p) && KernelsKnown(p) && (Usable(p) <==> Usable(Pass0(p)))
  {
    hide Pass, Safe, MM.Valid;
    SafeIsShaped(p);
    PassIsCounted(p, 0, Coord(0, 0));
    PassKeepsSetup(p, 0, Coord(0, 0));
  }

  // Replacing the pod that was just relaunched restores the invariant.
  lemma BetweenUpdate(cfg: Geometry, pods: seq<Pod>, bases: Bases, podv: set<nat>, k: nat, q: Pod)
    requires Between(cfg, pods, bases, podv) && k in podv && k < |pods|
    requires Ready(q, bases[k]) && q.mesh == pods[k].mesh && (Running(q) || AtRest(q))
    ensures Between(cfg, pods[k := q], bases, podv)
  {
    hide Ready, Running, AtRest, VcoreOrigin;
  }

  lemma FailedUpdate(pods: seq<Pod>, bases: Bases, k: nat, q: Pod)
    requires AllReady(pods, bases) && k < |pods| && Stopped(q) && (Usable(q) ==> SomeStarved(q))
    ensures FailedOn(pods[k := q], bases, k)
  {
    hide Ready, Stopped, Usable, SomeStarved;
  }

  lemma KeptTwice(p: Pod, q: Pod, r: Pod)
    requires PodKept(p, q) && PodKept(q, r)
    ensures PodKept(p, r)
  {
    hide AllFit, Ample, Usable;
  }

  // What the relaunch after a finish gives on that pod.
  lemma RelaunchGives(cfg: Geometry, pods: seq<Pod>, bases: Bases, podv: set<nat>, k: nat, mid: seq<Pod>)
    requires Between(cfg, pods, bases, podv) && RetiresOne(pods, mid, k)
    ensures k in podv && k < |mid| == |pods| == |bases| && Safe(mid[k]) && NoneEmpty(mid[k]) && !Stopped(mid[k])
    ensures var q := Pass0(mid[k]);
      && q.mesh == pods[k].mesh && PodKept(pods[k], q) && mid[k := q] == pods[k := q]
      && TotalRemaining(mid[k := q]) == TotalRemaining(pods) - 1
      && if Stopped(q) then Usable(q) ==> SomeStarved(q) else Ready(q, bases[k]) && (Running(q) || AtRest(q))
  {
    hide Between, RetiresOne, Ready, PodKept, Pass0, Stopped, Running, AtRest, Usable, SomeStarved, Safe, NoneEmpty;
    RetireStep(cfg, pods, bases, podv, k, mid);
    LaunchGives(mid[k], bases[k]);
    var q := Pass0(mid[k]);
    UpdateTotal(mid, k, q);
    KeptTwice(pods[k], mid[k], q);
    assert mid[k := q] == pods[k := q];
  }

  // One wait and one relaunch: the launch fails, or the invariant holds again,
  // with one unfinished group less; only that pod changed.
  lemma RoundStep(cfg: Geometry, pods: seq<Pod>, bases: Bases, podv: set<nat>, k: nat, mid: seq<Pod>)
    requires Between(cfg, pods, bases, podv) && RetiresOne(pods, mid, k)
    ensures k in podv && k < |mid| == |pods| && Safe(mid[k]) && NoneEmpty(mid[k]) && !Stopped(mid[k])
    ensures var q := Pass0(mid[k]); var after := mid[k := q];
      && after == pods[k := q] && PodKept(pods[k], q)
      && if Stopped(q) then FailedOn(after, bases, k)
         else Between(cfg, after, bases, podv) && TotalRemaining(after) == TotalRemaining(pods) - 1
  {
    hide Ready, PodKept, RetiresOne, AtHome, Stopped, Running, AtRest, Pass0, Safe, NoneEmpty, Usable, SomeStarved;
    RelaunchGives(cfg, pods, bases, podv, k, mid);
    SafeIsShaped(mid[k]);
    var q := Pass0(mid[k]);
    if Stopped(q) { FailedUpdate(pods, bases, k, q); } else { BetweenUpdate(cfg, pods, bases, podv, k, q); }
  }

  // The first round of launches: pods up to position j of the list are started.
  ghost predicate Starting(cfg: Geometry, pods: seq<Pod>, bases: Bases, podv: seq<nat>, j: nat) {
    && AtHome(cfg, pods) && AllReady(pods, bases)
    && (forall k :: 0 <= k < |pods| && k in podv[..if j <= |podv| then j else 0] ==>
          Running(pods[k]) || AtRest(pods[k]))
    && (forall k :: 0 <= k < |pods| && k !in podv ==> !Running(pods[k]))
  }

  lemma StartInit(cfg: Geometry, pods: seq<Pod>, bases: Bases, podv: seq<nat>)
    requires AtHome(cfg, pods) && AllReady(pods, bases)
    requires forall k :: 0 <= k < |pods| ==> !Running(pods[k])
    ensures Starting(cfg, pods, bases, podv, 0)
  {
  }

  lemma StartStep(cfg: Geometry, pods: seq<Pod>, bases: Bases, podv: seq<nat>, j: nat)
    requires Starting(cfg, pods, bases, podv, j) && j < |podv| && podv[j] < |pods|
    ensures var p := pods[podv[j]]; Safe(p) && NoneEmpty(p) && !Stopped(p)
    ensures var k := podv[j]; var q := Pass0(pods[k]);
      && PodKept(pods[k], q)
      && if Stopped(q) then FailedOn(pods[k := q], bases, k) else Starting(cfg, pods[k := q], bases, podv, j + 1)
  {
    hide Ready, PodKept, Usable, Pass0, SomeStarved, Safe, NoneEmpty, Running, AtRest, Stopped, VcoreOrigin;
    var k := podv[j];
    ReadyIsSafe(pods, bases, k);
    LaunchGives(pods[k], bases[k]);
    var q := Pass0(pods[k]);
    if Stopped(q) {
      FailedUpdate(pods, bases, k, q);
    } else {
      assert podv[..j + 1] == podv[..j] + [k];
    }
  }

  lemma StartDone(cfg: Geometry, pods: seq<Pod>, bases: Bases, podv: seq<nat>)
    requires Starting(cfg, pods, bases, podv, |podv|)
    ensures Between(cfg, pods, bases, Members(podv))
  {
    assert podv[..|podv|] == podv;
  }

  // ---------------------------------------------------------------- the object

  class DeviceObject {
    const cfg: Geometry
    const pods: seq<PodObject>
    var noise: seq<Packet>  // unrelated packets that are still to arrive

    ghost const repr: set<object>

    constructor (cfg: Geometry, pods: seq<PodObject>, noise: seq<Packet>)
      requires forall k :: 0 <= k < |pods| ==> pods[k].Valid()
      requires forall i, j :: 0 <= i < j < |pods| ==> pods[i] != pods[j] && pods[i].manager != pods[j].manager
      ensures this.cfg == cfg && this.pods == pods && this.noise == noise
      ensures repr == Parts(pods)
      ensures Sound()
    {
      this.cfg, this.pods, this.noise := cfg, pods, noise;
      repr := Parts(pods);
    }

    // The pods and their managers are different objects; pods may share a network.
    ghost predicate Separate() {
      && (forall k :: 0 <= k < |pods| ==> pods[k] in repr && pods[k].manager in repr && pods[k].fabric in repr)
      && (forall i, j :: 0 <= i < j < |pods| ==> pods[i] != pods[j] && pods[i].manager != pods[j].manager)
      && this !in repr
    }

    ghost function Views(): (vs: seq<Pod>)
      requires Separate()
      reads repr
      ensures |vs| == |pods| && forall k :: 0 <= k < |pods| ==> vs[k] == pods[k].View()
    {
      seq(|pods|, k requires 0 <= k < |pods| reads repr => pods[k].View())
    }

    ghost function Started(): (ls: Logs)
      requires Separate()
      reads repr
      ensures |ls| == |pods| && forall k :: 0 <= k < |pods| ==> ls[k] == pods[k].started
    {
      seq(|pods|, k requires 0 <= k < |pods| reads repr => pods[k].started)
    }

    ghost predicate Sound()
      reads repr
    {
      Separate() && forall k :: 0 <= k < |pods| ==> pods[k].Valid()
    }

    // The network: the next unrelated packet, or the finish packet of any group
    // that is running, which the device never forges. With no group running the
    // read can go on forever.
    method Receive() returns (r: Option<Packet>)
      requires Separate() && AtHome(cfg, Views())
      modifies this`noise
      ensures r.Some? ==> Genuine(Views(), r.value) || (Unrelated(cfg, Views(), r.value) && |noise| < |old(noise)|)
      ensures r.None? ==> !AnyRunning(Views())
      ensures |noise| <= |old(noise)|
    {
      if * {
        if noise != [] {
          var next := noise[0];
          var related := HasReceiver(next);
          if !related {
            noise := noise[1..];
            return Some(next);
          }
        }
      }
      if k, i :| 0 <= k < |pods| && 0 <= i < |pods[k].groups| && pods[k].groups[i].status.Launched? {
        var pkt := FinishPacket(pods[k].groups[i]);
        assert Sends(Views()[k].groups[i], pkt);
        return Some(pkt);
      }
      assert forall k :: 0 <= k < |pods| ==> Views()[k].groups == pods[k].groups;
      return None;
    }

    method HasReceiver(pkt: Packet) returns (related: bool)
      requires Separate() && Valid(cfg)
      ensures !related ==> Unrelated(cfg, Views(), pkt)
    {
      if pkt.data != FINISH_SIGNAL_VAL {
        return false;
      }
      var k := PodIndex(cfg, pkt.src);
      if k >= |pods| {
        return true;
      }
      related := exists i :: 0 <= i < |pods[k].groups| && Matches(pods[k].groups[i], pkt);
      assert Views()[k] == pods[k].View();
    }

    method FindGroup(k: nat, pkt: Packet) returns (found: bool, i: nat)
      requires Separate() && k < |pods|
      ensures found ==> i < |pods[k].groups| && Matches(pods[k].groups[i], pkt)
      ensures found <==> HasMatch(Views()[k], pkt)
    {
      i := 0;
      while i < |pods[k].groups|
        invariant 0 <= i <= |pods[k].groups|
        invariant forall j :: 0 <= j < i ==> !Matches(pods[k].groups[j], pkt)
      {
        if Matches(pods[k].groups[i], pkt) {
          assert Matches(Views()[k].groups[i], pkt);
          return true, i;
        }
        i := i + 1;
      }
      assert Views()[k].groups == pods[k].groups;
      return false, i;
    }

    // Read packets until one is the finish packet of a launched group.
    method NextFinish(ghost bases: Bases) returns (found: bool, k: nat, i: nat)
      requires Separate() && AtHome(cfg, Views()) && AllReady(Views(), bases)
      modifies this`noise
      ensures if found then k < |pods| && i < |pods[k].groups| && pods[k].groups[i].status.Launched?
        else !AnyRunning(Views())
    {
      hide AnyRunning, AllReady;
      ghost var vs := Views();
      while true
        invariant vs == Views()
        decreases |noise|
      {
        var r := Receive();
        if r.None? {
          return false, 0, 0;
        }
        var pkt := r.value;
        if pkt.data == FINISH_SIGNAL_VAL {
          ReceiverExists(cfg, vs, bases, pkt);
          k := PodIndex(cfg, pkt.src);
          found, i := FindGroup(k, pkt);
          if found {
            return;
          }
        }
      }
    }

    method FinishOn(k: nat, i: nat)
      requires Sound() && k < |pods| && Safe(pods[k].View()) && i < |pods[k].groups| && pods[k].groups[i].status.Launched?
      modifies pods[k], pods[k].manager
      ensures Sound() && Views() == old(Views())[k := Retire(old(Views())[k], i)] && Started() == old(Started())
    {
      hide Retire, Safe, PodObject.Valid, PodObject.View;
      pods[k].FinishGroup(i);
      assert forall j :: 0 <= j < |pods| && j != k ==> pods[j].View() == old(pods[j].View());
    }

    // Wait for any running group, on any pod, and clean it up.
    method WaitForFinish(ghost bases: Bases, ghost podv: set<nat>) returns (found: bool, podDone: nat)
      requires Sound() && Between(cfg, Views(), bases, podv)
      modifies this`noise, repr
      ensures Sound() && Started() == old(Started())
      ensures if found then RetiresOne(old(Views()), Views(), podDone)
        else Views() == old(Views()) && !AnyRunning(Views())
    {
      hide AnyRunning, Ready, Safe, RetiresOne, PodObject.Valid;
      ghost var vs := Views();
      var k, i;
      found, k, i := NextFinish(bases);
      if !found {
        assert Views() == vs;
        return false, 0;
      }
      ReadyIsSafe(Views(), bases, k);
      FinishOn(k, i);
      RetiresThis(vs, Views(), k, i);
      return true, k;
    }

    method LaunchOn(k: nat) returns (ok: bool)
      requires Sound() && k < |pods| && Safe(pods[k].View()) && NoneEmpty(pods[k].View()) && !Stopped(pods[k].View())
      modifies pods[k], pods[k].manager, pods[k].fabric`mem
      ensures Sound() && Views() == old(Views())[k := Pass0(old(Views())[k])]
      ensures ok <==> !Stopped(Views()[k])
      ensures old(Started())[k] <= Started()[k] && Started() == old(Started())[k := Started()[k]]
      ensures Runs(old(Views())[k], Views()[k], Started()[k][|old(Started())[k]|..])
    {
      hide Pass0, Safe, NoneEmpty, Runs, PodObject.Valid;
      ok := pods[k].TryLaunch();
      assert forall j :: 0 <= j < |pods| && j != k ==> pods[j].View() == old(pods[j].View());
    }

    method AllFinished(podv: seq<nat>) returns (done: bool, ghost waiting: nat)
      requires Separate() && forall j :: 0 <= j < |podv| ==> podv[j] < |pods|
      ensures Views() == old(Views()) && Started() == old(Started()) && (old(Sound()) ==> Sound())
      ensures if done then AllOver(Views(), podv) else Unfinished(Views(), podv, waiting)
    {
      for j := 0 to |podv|
        invariant forall l :: 0 <= l < j ==> Done(Views()[podv[l]])
      {
        var finished := pods[podv[j]].AllFinished();
        assert Views()[podv[j]] == pods[podv[j]].View();
        if !finished {
          return false, podv[j];
        }
      }
      return true, 0;
    }

    // Launch as many groups as possible on every listed pod.
    method LaunchAll(podv: seq<nat>, ghost bases: Bases) returns (ok: bool, ghost failed: nat)
      requires Sound() && Starting(cfg, Views(), bases, podv, 0)
      requires forall j :: 0 <= j < |podv| ==> podv[j] < |pods|
      modifies repr
      ensures Sound() && Progress(old(Views()), old(Started()), Views(), Started(), podv)
      ensures if ok then Starting(cfg, Views(), bases, podv, |podv|)
        else failed in podv && FailedOn(Views(), bases, failed)
    {
      StartIsKnown(cfg, Views(), bases, podv);
      hide Starting, FailedOn, Progress, Stopped, Pass0, Safe, NoneEmpty, Runs, KernelsKnown, PodKept;
      ghost var vs0, ls0 := Views(), Started();
      NoProgress(vs0, ls0, podv);
      for j := 0 to |podv|
        invariant Sound() && Starting(cfg, Views(), bases, podv, j)
        invariant Progress(vs0, ls0, Views(), Started(), podv)
      {
        ghost var vs, ls := Views(), Started();
        StartStep(cfg, vs, bases, podv, j);
        ok := LaunchOn(podv[j]);
        ProgressStep(vs0, ls0, vs, ls, podv[j], Views()[podv[j]], Started()[podv[j]], podv);
        if !ok {
          return false, podv[j];
        }
      }
      return true, 0;
    }

    // Wait for one group to finish, then launch again on its pod.
    method Round(ghost bases: Bases, podv: seq<nat>) returns (outcome: Outcome, ghost failed: nat)
      requires Sound() && Between(cfg, Views(), bases, Members(podv))
      modifies this`noise, repr
      ensures Sound() && Progress(old(Views()), old(Started()), Views(), Started(), podv)
      ensures match outcome
        case AllDone =>
          Between(cfg, Views(), bases, Members(podv)) && TotalRemaining(Views()) == TotalRemaining(old(Views())) - 1
        case Stalled => Views() == old(Views()) && !AnyRunning(Views())
        case Failed => failed in podv && FailedOn(Views(), bases, failed)
    {
      BetweenIsKnown(cfg, Views(), bases, Members(podv));
      hide Between, FailedOn, Kept, Stopped, Pass0, Safe, NoneEmpty, RetiresOne, AnyRunning, Recorded, Runs, KernelsKnown;
      ghost var before, ls := Views(), Started();
      NoneChanged(before, podv);
      NothingRecorded(before, ls);
      var found, k := WaitForFinish(bases, Members(podv));
      if !found {
        return Stalled, 0;
      }
      ghost var mid := Views();
      RoundStep(cfg, before, bases, Members(podv), k, mid);
      RetireIsRecorded(cfg, before, ls, bases, Members(podv), k, mid);
      var ok := LaunchOn(k);
      RecordedStep(before, ls, mid, ls, k, Views()[k], Started()[k]);
      KeptStep(before, before, podv, k, Views()[k]);
      return if ok then AllDone else Failed, k;
    }

    // Keep waiting and relaunching until every group of the listed pods is finished.
    method RunUntilDone(podv: seq<nat>, ghost bases: Bases) returns (outcome: Outcome, ghost failed: nat)
      requires Sound() && Between(cfg, Views(), bases, Members(podv))
      requires forall j :: 0 <= j < |podv| ==> podv[j] < |pods|
      modifies this`noise, repr
      ensures Sound() && Progress(old(Views()), old(Started()), Views(), Started(), podv)
      ensures outcome.Failed? ==> failed in podv && FailedOn(Views(), bases, failed)
      ensures !outcome.Failed? ==> Between(cfg, Views(), bases, Members(podv))
      ensures outcome.AllDone? ==> AllOver(Views(), podv)
      ensures outcome.Stalled? ==> !AnyRunning(Views()) && exists k: nat :: Unfinished(Views(), podv, k)
    {
      BetweenIsKnown(cfg, Views(), bases, Members(podv));
      hide Between, FailedOn, Progress, Members, AnyRunning, TotalRemaining, Valid, KernelsKnown;
      hide AllOver, Unfinished, PodObject.Valid, PodObject.View;
      ghost var vs0, ls0 := Views(), Started();
      NoProgress(vs0, ls0, podv);
      failed := 0;
      var done, waiting := AllFinished(podv);
      while !done
        invariant Sound() && Between(cfg, Views(), bases, Members(podv))
        invariant Progress(vs0, ls0, Views(), Started(), podv)
        invariant if done then AllOver(Views(), podv) else Unfinished(Views(), podv, waiting)
        decreases TotalRemaining(Views()), !done
      {
        ghost var vs, ls := Views(), Started();
        outcome, failed := Round(bases, podv);
        ProgressTransitively(vs0, ls0, vs, ls, Views(), Started(), podv);
        if outcome != AllDone {
          return;
        }
        done, waiting := AllFinished(podv);
      }
      return AllDone, 0;
    }

    // It ends for every order in which groups finish, in one of three ways. All
    // groups have finished, and everything they used is given back. Or a launch
    // failed, because no hole in the pod's memory was large enough. Or the host
    // waits with nothing running, because a group does not fit its mesh. In any case
    // each group that was started was started once, with the arguments it had when
    // the run began; in the first, all groups were.
    method KernelsExecute(podv: seq<nat>, ghost bases: Bases) returns (outcome: Outcome, ghost failed: nat)
      requires Sound() && AtHome(cfg, Views()) && AllReady(Views(), bases)
      requires forall j :: 0 <= j < |podv| ==> podv[j] < |pods|
      requires forall k :: 0 <= k < |pods| ==> !Running(Views()[k])
      modifies this`noise, repr
      ensures Sound() && Progress(old(Views()), old(Started()), Views(), Started(), podv)
      ensures outcome.AllDone? ==>
        AllReady(Views(), bases) && forall k :: k in podv ==> Released(Views()[k], bases[k]) && AllFit(old(Views())[k])
      ensures outcome.AllDone? ==>
        forall k :: k in podv ==> EachOnce(old(Views())[k], Started()[k][|old(Started())[k]|..])
      ensures outcome.Stalled? ==>
        && AllReady(Views(), bases) && !AnyRunning(Views()) && (forall k :: k in podv ==> AtRest(Views()[k]))
        && exists k :: k in podv && !AllFit(old(Views())[k])
      ensures outcome.Failed? ==>
        failed in podv && FailedOn(Views(), bases, failed) && !Enough(old(Views())[failed])
      ensures (forall k :: k in podv ==> AllFit(old(Views())[k]) && Enough(old(Views())[k])) ==> outcome.AllDone?
    {
      hide Starting, FailedOn, Kept, Running, Between, Done, AtRest, AllFit, AnyRunning, Enough, Ready, Released;
      hide Recorded, EachOnce, AllOver, Unfinished;
      ghost var vs0, ls0 := Views(), Started();
      StartInit(cfg, vs0, bases, podv);
      var ok;
      ok, failed := LaunchAll(podv, bases);
      if !ok {
        FailedForWant(vs0, Views(), bases, podv, failed);
        return Failed, failed;
      }
      ghost var vs1, ls1 := Views(), Started();
      StartDone(cfg, vs1, bases, podv);
      outcome, failed := RunUntilDone(podv, bases);
      ProgressTransitively(vs0, ls0, vs1, ls1, Views(), Started(), podv);
      match outcome
      case AllDone =>
        AllReleasedAtEnd(cfg, vs0, Views(), bases, podv);
        AllStartedOnce(vs0, ls0, Views(), Started(), podv);
      case Stalled => StalledAtRest(cfg, vs0, Views(), bases, podv);
      case Failed => FailedForWant(vs0, Views(), bases, podv, failed);
    }
  }

  // The listed pods have finished all their groups, or one of them has not.
  ghost predicate AllOver(pods: seq<Pod>, podv: seq<nat>) { forall k :: k in podv ==> k < |pods| && Done(pods[k]) }

  ghost predicate Unfinished(pods: seq<Pod>, podv: seq<nat>, k: nat) { k in podv && k < |pods| && !Done(pods[k]) }

  /** How running the listed pods ends, if it does; Stalled stands for a read that
      never returns. */
  datatype Outcome = AllDone | Stalled | Failed

  ghost function Parts(pods: seq<PodObject>): set<object> {
    (set k | 0 <= k < |pods| :: pods[k] as object) + (set k | 0 <= k < |pods| :: pods[k].manager as object)
    + (set k | 0 <= k < |pods| :: pods[k].fabric as object)
  }

  // Everything finished; device memory and kernels are back to what they were.
  ghost predicate Released(p: Pod, base: seq<MM.Block>) {
    && Done(p)
    && (forall t :: 0 <= t < |p.tiles| ==> p.tiles[t].status.Free?)
    && p.mem.busy == base && p.mem.freeSize == p.region.size - MM.Total(base)
    && forall k :: 0 <= k < |p.kernels| ==> p.kernels[k].refcount == 0 && p.kernels[k].exits == 1
  }

  ghost function Members(podv: seq<nat>): set<nat> { set k | k in podv }

  // All pods of a run know their groups' kernels.
  lemma StartIsKnown(cfg: Geometry, pods: seq<Pod>, bases: Bases, podv: seq<nat>)
    requires Starting(cfg, pods, bases, podv, 0)
    ensures forall k :: 0 <= k < |pods| ==> KernelsKnown(pods[k])
  {
    forall k | 0 <= k < |pods| ensures KernelsKnown(pods[k]) {
      ReadyIsSafe(pods, bases, k);
      SafeIsShaped(pods[k]);
    }
  }

  lemma BetweenIsKnown(cfg: Geometry, pods: seq<Pod>, bases: Bases, podv: set<nat>)
    requires Between(cfg, pods, bases, podv)
    ensures forall k :: 0 <= k < |pods| ==> KernelsKnown(pods[k])
  {
    forall k | 0 <= k < |pods| ensures KernelsKnown(pods[k]) {
      ReadyIsSafe(pods, bases, k);
      SafeIsShaped(pods[k]);
    }
  }

  lemma RetireIsRecorded(cfg: Geometry, pods: seq<Pod>, logs: Logs, bases: Bases, podv: set<nat>, k: nat, after: seq<Pod>)
    requires Between(cfg, pods, bases, podv) && RetiresOne(pods, after, k) && |logs| == |pods|
    ensures Recorded(pods, logs, after, logs)
  {
    BetweenIsKnown(cfg, pods, bases, podv);
    NothingRecorded(pods, logs);
    var i :| 0 <= i < |pods[k].groups| && RetiresGroup(pods, after, k, i);
    assert Ready(pods[k], bases[k]);
    RetireRuns(pods[k], i);
    hide Recorded, Runs, Retire;
    assert logs[k][|logs[k]|..] == [] && logs[k := logs[k]] == logs;
    RecordedStep(pods, logs, pods, logs, k, Retire(pods[k], i), logs[k]);
  }

  lemma AllStartedOnce(before: seq<Pod>, logs: Logs, after: seq<Pod>, logs': Logs, podv: seq<nat>)
    requires Recorded(before, logs, after, logs')
    requires AllOver(after, podv)
    ensures forall k :: k in podv ==> EachOnce(before[k], logs'[k][|logs[k]|..])
  {
    hide Runs, EachOnce;
    forall k | k in podv ensures EachOnce(before[k], logs'[k][|logs[k]|..]) {
      FinishedRunsAll(before[k], after[k], logs'[k][|logs[k]|..]);
    }
  }

  lemma NoneChanged(vs: seq<Pod>, podv: seq<nat>)
    ensures Kept(vs, vs, podv)
  {
  }

  lemma KeptStep(before: seq<Pod>, vs: seq<Pod>, podv: seq<nat>, k: nat, q: Pod)
    requires Kept(before, vs, podv) && k in podv && k < |vs| && PodKept(vs[k], q)
    ensures Kept(before, vs[k := q], podv)
  {
    hide AllFit, Ample, Usable;
  }

  lemma KeptTransitively(a: seq<Pod>, b: seq<Pod>, c: seq<Pod>, podv: seq<nat>)
    requires Kept(a, b, podv) && Kept(b, c, podv)
    ensures Kept(a, c, podv)
  {
    hide AllFit, Ample, Usable;
  }

  lemma AllReleasedAtEnd(cfg: Geometry, before: seq<Pod>, pods: seq<Pod>, bases: Bases, podv: seq<nat>)
    requires Kept(before, pods, podv) && Between(cfg, pods, bases, Members(podv))
    requires forall j :: 0 <= j < |podv| ==> podv[j] < |pods|
    requires AllOver(pods, podv)
    ensures AllReady(pods, bases)
    ensures forall k :: k in podv ==> Released(pods[k], bases[k]) && AllFit(before[k])
  {
    hide Ample, Usable;
    forall k | k in podv ensures Released(pods[k], bases[k]) && AllFit(before[k]) {
      ReleasedAtEnd(pods[k], bases[k]);
      assert AllFit(pods[k]) && PodKept(before[k], pods[k]);
    }
  }

  // With nothing running, each listed pod has only groups left that do not fit.
  lemma StalledAtRest(cfg: Geometry, before: seq<Pod>, pods: seq<Pod>, bases: Bases, podv: seq<nat>)
    requires Kept(before, pods, podv) && Between(cfg, pods, bases, Members(podv)) && !AnyRunning(pods)
    requires forall j :: 0 <= j < |podv| ==> podv[j] < |pods|
    requires exists k: nat :: Unfinished(pods, podv, k)
    ensures AllReady(pods, bases) && forall k :: k in podv ==> AtRest(pods[k])
    ensures exists k :: k in podv && !AllFit(before[k])
  {
    hide Ample, Usable, Ready, Running;
    var k: nat :| Unfinished(pods, podv, k);
    assert AtRest(pods[k]) && PodKept(before[k], pods[k]);
    assert !AllFit(before[k]);
  }

  lemma FailedForWant(before: seq<Pod>, pods: seq<Pod>, bases: Bases, podv: seq<nat>, k: nat)
    requires AllReady(before, bases) && Kept(before, pods, podv) && FailedOn(pods, bases, k)
    ensures !Enough(before[k])
  {
    hide AllFit, Enough, Usable;
    assert PodKept(before[k], pods[k]) && Ready(before[k], bases[k]);
  }

  lemma ReadyIsSafe(pods: seq<Pod>, bases: Bases, k: nat)
    requires AllReady(pods, bases) && k < |pods|
    ensures Safe(pods[k]) && NoneEmpty(pods[k])
  {
  }

  lemma ReleasedAtEnd(p: Pod, base: seq<MM.Block>)
    requires Ready(p, base) && Done(p)
    ensures Released(p, base)
  {
    AllReleased(p, base);
    forall t | 0 <= t < |p.tiles| ensures p.tiles[t].status.Free? {
      BusyTileHasOneOwner(p, t);
    }
  }

  // A packet with the finish value comes from an existing pod, and one that
  // matches no group there is unrelated.
  lemma ReceiverExists(cfg: Geometry, pods: seq<Pod>, bases: Bases, pkt: Packet)
    requires AtHome(cfg, pods) && AllReady(pods, bases) && pkt.data == FINISH_SIGNAL_VAL
    requires Genuine(pods, pkt) || Unrelated(cfg, pods, pkt)
    ensures PodIndex(cfg, pkt.src) < |pods|
    ensures Genuine(pods, pkt) ==> HasMatch(pods[PodIndex(cfg, pkt.src)], pkt)
  {
    if Genuine(pods, pkt) {
      var k, i :| 0 <= k < |pods| && 0 <= i < |pods[k].groups| && Sends(pods[k].groups[i], pkt);
      PacketFindsItsGroup(cfg, pods, bases, k, i);
    }
  }
}
