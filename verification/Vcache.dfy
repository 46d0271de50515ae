// Cache line addresses, and the sweep over every line of a pod's caches.
module Vcache {
  import opened Bits
  import opened Coordinates
  import opened PodGeometry
  import opened EvaMap

  datatype Caches = Caches(geo: Geometry, present: bool, ways: nat, sets: nat, blockSize: nat)

  const TAG_BITIDX: nat := 29
  const TAG: nat := 0x2000_0000

  // Counts are powers of two, and a line's address stays below the tag bit.
  ghost predicate Valid(c: Caches) {
    && PodGeometry.Valid(c.geo) && IsPow2(c.ways) && IsPow2(c.sets) && IsPow2(c.blockSize)
    && FloorLog2(c.ways) + FloorLog2(c.sets) + FloorLog2(c.blockSize) <= TAG_BITIDX
  }

  function SetShift(c: Caches): nat
    requires c.blockSize > 0
  {
    PopCount(c.blockSize - 1)
  }

  function SetOf(c: Caches, epa: nat): nat
    requires c.blockSize > 0 && c.sets > 0
  {
    And(Shr(epa, SetShift(c)), c.sets - 1)
  }

  function WayShift(c: Caches): nat
    requires c.blockSize > 0 && c.sets > 0
  {
    PopCount(c.sets - 1) + SetShift(c)
  }

  function WayOf(c: Caches, epa: nat): nat
    requires c.blockSize > 0 && c.sets > 0 && c.ways > 0
  {
    And(Shr(epa, WayShift(c)), c.ways - 1)
  }

  /** The address that names a line by set and way. */
  function WayAddr(c: Caches, set_: nat, way: nat): nat
    requires c.blockSize > 0 && c.sets > 0
  {
    Or(Or(TAG, Low(Shl(way, WayShift(c)), 32)), Low(Shl(set_, SetShift(c)), 32))
  }

  // ---------------------------------------------------------------- encode and decode

  // A line's address is its set, its way and the tag bit side by side.
  lemma AddressInFields(ss: nat, sb: nat, wb: nat, set_: nat, way: nat)
    requires set_ < Pow2(sb) && way < Pow2(wb) && ss + sb + wb <= TAG_BITIDX
    ensures var ws := sb + ss; var top := way + Shl(1, TAG_BITIDX - ws);
      && Shl(set_, ss) < Pow2(ws)
      && Or(Or(TAG, Low(Shl(way, ws), 32)), Low(Shl(set_, ss), 32)) == Shl(set_, ss) + Shl(top, ws)
  {
    hide Shr, Low, Shl, Pow2, Or;
    var ws := sb + ss;
    var top := way + Shl(1, TAG_BITIDX - ws);
    TagIsBit();
    SumBelowZero(set_, ss, sb);
    SumBelowZero(way, ws, wb);
    Pow2Monotone(ws + wb, TAG_BITIDX);
    Pow2Monotone(ws, 32);
    Pow2Monotone(TAG_BITIDX, 32);
    LowIsSmall(Shl(way, ws), 32);
    LowIsSmall(Shl(set_, ss), 32);
    OrCommutes(TAG, Shl(way, ws));
    OrDisjoint(Shl(way, ws), 1, TAG_BITIDX);
    ShlSum(1, TAG_BITIDX - ws, ws);
    ShlOfSum(way, Shl(1, TAG_BITIDX - ws), ws);
    OrCommutes(Shl(top, ws), Shl(set_, ss));
    OrDisjoint(Shl(set_, ss), top, ws);
  }

  lemma SumBelowZero(q: nat, j: nat, k: nat)
    requires q < Pow2(k)
    ensures Shl(q, j) < Pow2(k + j) && k + j == j + k
  {
    hide Shl, Pow2;
    Pow2Positive(j);
    SumBelow(0, q, j, k);
  }

  lemma TagIsBit()
    ensures Shl(1, TAG_BITIDX) == TAG
  {
    hide Shl;
    BitIsPow2(TAG_BITIDX);
    assert Pow2(8) == 0x100;
    var n := 8;
    Pow2Sum(n, n);
    Pow2Sum(2 * n, n);
    assert Pow2(5) == 32;
    Pow2Sum(3 * n, 5);
  }

  /** Lines are numbered way by way, set by set, in units of a block, from the tag
      bit on. */
  ghost function Numbered(c: Caches, set_: nat, way: nat): nat {
    0x2000_0000 + way * (c.sets * c.blockSize) + set_ * c.blockSize
  }

  // Shifts and ors give that number.
  lemma WayAddrIsNumber(c: Caches, set_: nat, way: nat)
    requires Valid(c) && set_ < c.sets && way < c.ways
    ensures WayAddr(c, set_, way) == Numbered(c, set_, way)
  {
    hide Shr, Low, Shl, Pow2, Or, PopCount;
    var ss, sb, wb := FloorLog2(c.blockSize), FloorLog2(c.sets), FloorLog2(c.ways);
    var ws := sb + ss;
    PopCountOfMask(ss);
    PopCountOfMask(sb);
    AddressInFields(ss, sb, wb, set_, way);
    ShlOfSum(way, Shl(1, TAG_BITIDX - ws), ws);
    ShlSum(1, TAG_BITIDX - ws, ws);
    TagIsBit();
    ShlIsProduct(set_, ss);
    ShlIsProduct(way, ws);
    Pow2Sum(sb, ss);
  }

  // Decoding inverts encoding.
  lemma DecodeEncode(c: Caches, set_: nat, way: nat)
    requires Valid(c) && set_ < c.sets && way < c.ways
    ensures SetOf(c, WayAddr(c, set_, way)) == set_ && WayOf(c, WayAddr(c, set_, way)) == way
  {
    hide Shr, Low, Shl, Pow2, Or, And, PopCount;
    var ss, sb, wb := FloorLog2(c.blockSize), FloorLog2(c.sets), FloorLog2(c.ways);
    PopCountOfMask(ss);
    PopCountOfMask(sb);
    var ws := sb + ss;
    var rest := Shl(1, TAG_BITIDX - ws);
    var top := way + rest;
    AddressInFields(ss, sb, wb, set_, way);
    var a := WayAddr(c, set_, way);
    AndMask(Shr(a, ss), sb);
    AndMask(Shr(a, ws), wb);
    assert WayOf(c, a) == way by {
      LowShrUnique(Shl(set_, ss), top, ws);
      ShlSum(1, TAG_BITIDX - ws - wb, wb);
      LowShrUnique(way, Shl(1, TAG_BITIDX - ws - wb), wb);
    }
    assert SetOf(c, a) == set_ by {
      ShlSum(top, sb, ss);
      ShlOfSum(set_, Shl(top, sb), ss);
      Pow2Positive(ss);
      LowShrUnique(0, set_ + Shl(top, sb), ss);
      LowShrUnique(set_, top, sb);
    }
  }

  // ---------------------------------------------------------------- the sweep

  /** Where an operation on a line of a cache is sent; a cache is named by the
      number of its bank. */
  function WayNpa(c: Caches, cache: nat, set_: nat, way: nat): Npa
    requires c.blockSize > 0 && c.sets > 0 && c.geo.podShape.x > 0 && c.geo.podShape.y > 0 && c.geo.pods.y > 0
  {
    var co := Dram(c.geo, cache);
    Npa(co.x, co.y, WayAddr(c, set_, way))
  }

  /** A line of a pod's caches: way, set, and bank of the pod. */
  datatype Line = Line(way: nat, set_: nat, bank: nat)

  predicate IsLine(c: Caches, l: Line) { l.way < c.ways && l.set_ < c.sets && l.bank < 2 * c.geo.podShape.x }

  // Sweep order.
  predicate Earlier(a: Line, b: Line) {
    a.way < b.way || (a.way == b.way && (a.set_ < b.set_ || (a.set_ == b.set_ && a.bank < b.bank)))
  }

  ghost function Target(c: Caches, pod: Coord, l: Line): Npa
    requires c.blockSize > 0 && c.sets > 0 && c.geo.podShape.x > 0 && c.geo.podShape.y > 0
  {
    var co := PodDram(c.geo, pod, l.bank);
    Npa(co.x, co.y, WayAddr(c, l.set_, l.way))
  }

  // Different lines have different targets.
  lemma TargetsDiffer(c: Caches, pod: Coord, a: Line, b: Line)
    requires Valid(c) && IsPod(c.geo, pod) && IsLine(c, a) && IsLine(c, b) && Target(c, pod, a) == Target(c, pod, b)
    ensures a == b
  {
    hide WayAddr, SetOf, WayOf, PodDram, PodDramId;
    DecodeEncode(c, a.set_, a.way);
    DecodeEncode(c, b.set_, b.way);
    PodDramIdRoundTrip(c.geo, pod, a.bank);
    PodDramIdRoundTrip(c.geo, pod, b.bank);
  }

  // The number of the bank at a position of the iteration leads back to it.
  lemma NumberOfBank(c: Caches, pod: Coord, k: nat, set_: nat, way: nat)
    requires Valid(c) && IsPod(c.geo, pod) && k < 2 * c.geo.podShape.x
    ensures DramPosition(c.geo, pod, k) == PodDram(c.geo, pod, k)
    ensures WayNpa(c, DramId(c.geo, DramPosition(c.geo, pod, k)), set_, way) == Target(c, pod, Line(way, set_, k))
  {
    hide WayAddr, PodDram, DramId, Dram;
    DramIterationIsExact(c.geo, pod, k);
    PodDramIdRoundTrip(c.geo, pod, k);
    DramRoundTrip(c.geo, pod, PodDram(c.geo, pod, k));
  }

  /** The network, as far as cache operations go: it records the targets, and an
      unreliable one may refuse an operation. */
  class CacheLog {
    const reliable: bool
    var log: seq<Npa>

    constructor (reliable: bool)
      ensures this.reliable == reliable && log == []
    {
      this.reliable, log := reliable, [];
    }

    method Apply(npa: Npa) returns (ok: bool)
      modifies this
      ensures ok ==> log == old(log) + [npa]
      ensures !ok ==> log == old(log) && !reliable
    {
      if * {
        if !reliable {
          return false;
        }
      }
      log := log + [npa];
      return true;
    }
  }

  // The lines swept so far are those before a line, in order.
  ghost predicate Swept(c: Caches, done: seq<Line>, next: Line) {
    && (forall i :: 0 <= i < |done| ==> IsLine(c, done[i]) && Earlier(done[i], next))
    && (forall i, j :: 0 <= i < j < |done| ==> Earlier(done[i], done[j]))
    && (forall l :: IsLine(c, l) && Earlier(l, next) ==> l in done)
  }

  lemma SweptStep(c: Caches, done: seq<Line>, next: Line)
    requires Swept(c, done, next) && IsLine(c, next)
    ensures Swept(c, done + [next], next.(bank := next.bank + 1))
  {
    var done', next' := done + [next], next.(bank := next.bank + 1);
    forall l | IsLine(c, l) && Earlier(l, next') ensures l in done' {
      if l != next { assert l in done; }
    }
  }

  lemma SweptRow(c: Caches, done: seq<Line>, next: Line)
    requires Swept(c, done, next)
    ensures next.bank >= 2 * c.geo.podShape.x ==> Swept(c, done, Line(next.way, next.set_ + 1, 0))
    ensures next.set_ >= c.sets && next.bank == 0 ==> Swept(c, done, Line(next.way + 1, 0, 0))
  {
  }

  // A log of targets.
  ghost predicate Logged(c: Caches, pod: Coord, before: seq<Npa>, after: seq<Npa>, done: seq<Line>)
    requires c.blockSize > 0 && c.sets > 0 && c.geo.podShape.x > 0 && c.geo.podShape.y > 0
  {
    |after| == |before| + |done| && after[..|before|] == before
    && forall i :: 0 <= i < |done| ==> after[|before| + i] == Target(c, pod, done[i])
  }

  // What a complete sweep has done: each line's target once, and nothing else.
  ghost predicate EachLineOnce(c: Caches, pod: Coord, visits: seq<Npa>)
    requires c.blockSize > 0 && c.sets > 0 && c.geo.podShape.x > 0 && c.geo.podShape.y > 0
  {
    && (forall i, j :: 0 <= i < j < |visits| ==> visits[i] != visits[j])
    && (forall npa :: npa in visits <==> IsTarget(c, pod, npa))
  }

  // The tag address of some way and set, at some bank of the pod.
  ghost predicate IsTarget(c: Caches, pod: Coord, npa: Npa)
    requires c.blockSize > 0 && c.sets > 0 && c.geo.podShape.x > 0 && c.geo.podShape.y > 0
  {
    IsBank(c.geo, pod, Coord(npa.x, npa.y))
    && exists set_: nat, way: nat :: set_ < c.sets && way < c.ways && npa.epa == Numbered(c, set_, way)
  }

  lemma CompleteSweep(c: Caches, pod: Coord, before: seq<Npa>, after: seq<Npa>, done: seq<Line>)
    requires Valid(c) && IsPod(c.geo, pod) && Logged(c, pod, before, after, done) && Swept(c, done, Line(c.ways, 0, 0))
    ensures EachLineOnce(c, pod, after[|before|..])
  {
    hide WayAddr, PodDram, IsBank, Target;
    var visits := after[|before|..];
    forall i, j | 0 <= i < j < |visits| ensures visits[i] != visits[j] {
      if visits[i] == visits[j] { TargetsDiffer(c, pod, done[i], done[j]); }
    }
    forall npa ensures npa in visits <==> IsTarget(c, pod, npa) {
      if npa in visits {
        var i :| 0 <= i < |visits| && visits[i] == npa;
        LineIsTarget(c, pod, done[i]);
      }
      if IsTarget(c, pod, npa) {
        var l := LineOfTarget(c, pod, npa);
        var i :| 0 <= i < |done| && done[i] == l;
        assert visits[i] == npa;
      }
    }
  }

  lemma LineIsTarget(c: Caches, pod: Coord, l: Line)
    requires Valid(c) && IsPod(c.geo, pod) && IsLine(c, l)
    ensures IsTarget(c, pod, Target(c, pod, l))
  {
    hide WayAddr, PodDram, IsBank;
    PodDramIdRoundTrip(c.geo, pod, l.bank);
    WayAddrIsNumber(c, l.set_, l.way);
  }

  lemma LineOfTarget(c: Caches, pod: Coord, npa: Npa) returns (l: Line)
    requires Valid(c) && IsPod(c.geo, pod) && IsTarget(c, pod, npa)
    ensures IsLine(c, l) && Target(c, pod, l) == npa && Earlier(l, Line(c.ways, 0, 0))
  {
    hide WayAddr, PodDram, IsBank, PodDramId;
    var set_: nat, way: nat :| set_ < c.sets && way < c.ways && npa.epa == Numbered(c, set_, way);
    WayAddrIsNumber(c, set_, way);
    PodDramRoundTrip(c.geo, pod, Coord(npa.x, npa.y));
    l := Line(way, set_, PodDramId(c.geo, Coord(npa.x, npa.y)));
  }

  /** Apply an operation to every line of a pod's caches. */
  method PodApplyToVcache(c: Caches, pod: Coord, network: CacheLog) returns (ok: bool)
    requires Valid(c) && IsPod(c.geo, pod)
    modifies network
    ensures network.reliable ==> ok
    ensures old(network.log) <= network.log
    ensures !c.present ==> ok && network.log == old(network.log)
    ensures ok && c.present ==> EachLineOnce(c, pod, network.log[|old(network.log)|..])
  {
    hide WayAddr, PodDram, Target, Swept, EachLineOnce, DramPosition, DramId, WayNpa;
    if !c.present {
      return true;
    }
    ghost var before, done := network.log, [];
    assert Swept(c, done, Line(0, 0, 0)) by { NothingSwept(c); }
    for way := 0 to c.ways
      invariant Logged(c, pod, before, network.log, done) && Swept(c, done, Line(way, 0, 0))
    {
      for set_ := 0 to c.sets
        invariant Logged(c, pod, before, network.log, done) && Swept(c, done, Line(way, set_, 0))
      {
        ghost var k := 0;
        var dram := DramStart(c.geo, pod);
        FirstPosition(c.geo, pod);
        DramIterationIsExact(c.geo, pod, k);
        while !DramStop(c.geo, pod, dram)
          invariant k <= 2 * c.geo.podShape.x && dram == DramPosition(c.geo, pod, k)
          invariant DramStop(c.geo, pod, dram) <==> k == 2 * c.geo.podShape.x
          invariant Logged(c, pod, before, network.log, done) && Swept(c, done, Line(way, set_, k))
          decreases 2 * c.geo.podShape.x - k
        {
          NumberOfBank(c, pod, k, set_, way);
          var wayAddr := WayNpa(c, DramId(c.geo, dram), set_, way);
          ok := network.Apply(wayAddr);
          if !ok {
            return;
          }
          SweptStep(c, done, Line(way, set_, k));
          done := done + [Line(way, set_, k)];
          NextPosition(c.geo, pod, k);
          DramIterationIsExact(c.geo, pod, k + 1);
          dram := DramNext(c.geo, pod, dram);
          k := k + 1;
        }
        SweptRow(c, done, Line(way, set_, k));
      }
      SweptRow(c, done, Line(way, c.sets, 0));
    }
    CompleteSweep(c, pod, before, network.log, done);
    return true;
  }

  lemma NothingSwept(c: Caches)
    ensures Swept(c, [], Line(0, 0, 0))
  {
  }

  lemma FirstPosition(geo: Geometry, pod: Coord)
    requires geo.podShape.x > 0 && geo.podShape.y > 0
    ensures DramPosition(geo, pod, 0) == DramStart(geo, pod)
  {
  }

  lemma NextPosition(geo: Geometry, pod: Coord, k: nat)
    requires geo.podShape.x > 0 && geo.podShape.y > 0
    ensures DramPosition(geo, pod, k + 1) == DramNext(geo, pod, DramPosition(geo, pod, k))
  {
  }
}
