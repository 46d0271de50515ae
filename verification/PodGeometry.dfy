// Where pods, tiles and DRAM banks sit on the network.
module PodGeometry {
  import opened Bits
  import opened Coordinates

  /** The geometric part of the configuration ROM. */
  datatype Geometry = Geometry(podShape: Coord, pods: Coord, host: Coord)

  // The tile width of a coordinate is a truncated logarithm of the pod shape.
  function TileWidth(cfg: Geometry): Coord
    requires cfg.podShape.x > 0 && cfg.podShape.y > 0
  {
    Coord(FloorLog2(cfg.podShape.x), FloorLog2(cfg.podShape.y))
  }

  // Pod shapes are powers of two with at least two rows; every coordinate fits
  // the 8-bit fields of a packet; the host is not in a row of southern banks.
  ghost predicate Valid(cfg: Geometry) {
    && IsPow2(cfg.podShape.x) && IsPow2(cfg.podShape.y) && cfg.podShape.y >= 2
    && cfg.pods.x >= 1 && cfg.pods.y >= 1
    && cfg.podShape.x * (cfg.pods.x + 1) <= 256 && cfg.podShape.y * (2 * cfg.pods.y) < 256
    && forall k :: 0 <= k < cfg.pods.y ==> cfg.host.y != SouthRow(cfg, k)
  }

  ghost function SouthRow(cfg: Geometry, podY: nat): nat { cfg.podShape.y * (2 * podY + 2) }

  ghost predicate IsPod(cfg: Geometry, pod: Coord) { pod.x < cfg.pods.x && pod.y < cfg.pods.y }

  // ---------------------------------------------------------------- pods

  /** The coordinate of the first core of a pod. */
  function VcoreOrigin(cfg: Geometry, pod: Coord): Coord
    requires cfg.podShape.x > 0 && cfg.podShape.y > 0
  {
    var w := TileWidth(cfg);
    Coord(Pow2(w.x) + Pow2(w.x) * pod.x, Pow2(w.y) + Pow2(w.y) * (pod.y * 2))
  }

  /** Network pod and position inside it: the high and low bits of a coordinate. */
  function NetworkPod(cfg: Geometry, co: Coord): Coord
    requires cfg.podShape.x > 0 && cfg.podShape.y > 0
  {
    var w := TileWidth(cfg);
    Coord(Shr(co.x, w.x), Shr(co.y, w.y))
  }

  function TileInPod(cfg: Geometry, co: Coord): Coord
    requires cfg.podShape.x > 0 && cfg.podShape.y > 0
  {
    var w := TileWidth(cfg);
    Coord(Low(co.x, w.x), Low(co.y, w.y))
  }

  predicate IsDramNorth(cfg: Geometry, co: Coord)
    requires cfg.podShape.x > 0 && cfg.podShape.y > 0
  {
    TileInPod(cfg, co).y == Pow2(TileWidth(cfg).y) - 1 && NetworkPod(cfg, co).y % 2 == 0
  }

  predicate IsDramSouth(cfg: Geometry, co: Coord)
    requires cfg.podShape.x > 0 && cfg.podShape.y > 0
  {
    TileInPod(cfg, co).y == 0 && NetworkPod(cfg, co).y % 2 == 0 && co.y != cfg.host.y
  }

  predicate IsDram(cfg: Geometry, co: Coord)
    requires cfg.podShape.x > 0 && cfg.podShape.y > 0
  {
    IsDramNorth(cfg, co) || IsDramSouth(cfg, co)
  }

  predicate IsVanillaCore(cfg: Geometry, co: Coord)
    requires cfg.podShape.x > 0 && cfg.podShape.y > 0
  {
    NetworkPod(cfg, co).y % 2 == 1
  }

  // Unsigned 32-bit decrement.
  function Dec(n: nat): nat { if n == 0 then TWO32 - 1 else n - 1 }

  /** The pod a coordinate belongs to. */
  function PodOf(cfg: Geometry, co: Coord): Coord
    requires cfg.podShape.x > 0 && cfg.podShape.y > 0
  {
    var np := NetworkPod(cfg, co);
    if IsVanillaCore(cfg, co) then Coord(Dec(np.x), np.y / 2)
    else if IsDramSouth(cfg, co) then Coord(Dec(np.x), Dec(np.y / 2))
    else if IsDramNorth(cfg, co) then Coord(Dec(np.x), np.y / 2)
    else Coord(0, 0)
  }

  // Origins as multiples of the pod shape.
  lemma OriginIs(cfg: Geometry, pod: Coord)
    requires Valid(cfg)
    ensures VcoreOrigin(cfg, pod) == Coord((1 + pod.x) * cfg.podShape.x, (1 + 2 * pod.y) * cfg.podShape.y)
    ensures Pow2(TileWidth(cfg).x) == cfg.podShape.x && Pow2(TileWidth(cfg).y) == cfg.podShape.y
  {
    Rows(cfg.podShape.x, pod.x);
    Rows(cfg.podShape.y, pod.y);
  }

  // A row or column number as a multiple of the pod height or width.
  lemma Rows(h: nat, p: nat)
    ensures h + h * p == (1 + p) * h
    ensures h + h * (p * 2) == (1 + 2 * p) * h
    ensures (1 + 2 * p) * h + h == (2 + 2 * p) * h == h * (2 * p + 2)
    ensures (1 + 2 * p) * h == (2 * p) * h + h
  {
  }

  // The end of pod p's rows or columns.
  lemma RowsEnd(h: nat, p: nat, n: nat)
    requires p < n
    ensures (1 + p) * h + h <= h * (n + 1)
    ensures (1 + 2 * p) * h + h <= h * (2 * n)
  {
    ProductSign(n - 1 - p, h);
    assert (n - 1 - p) * h == h * (n + 1) - ((1 + p) * h + h);
    assert 2 * ((n - 1 - p) * h) == h * (2 * n) - ((1 + 2 * p) * h + h);
  }

  // Cores and banks of a pod have coordinates that fit eight bits.
  lemma CoordinatesAreSmall(cfg: Geometry, pod: Coord)
    requires Valid(cfg) && IsPod(cfg, pod)
    ensures var og := VcoreOrigin(cfg, pod); og.x + cfg.podShape.x <= 256 && og.y + cfg.podShape.y < 256
  {
    OriginIs(cfg, pod);
    RowsEnd(cfg.podShape.x, pod.x, cfg.pods.x);
    RowsEnd(cfg.podShape.y, pod.y, cfg.pods.y);
  }

  lemma Divide(cfg: Geometry, co: Coord)
    requires Valid(cfg)
    ensures NetworkPod(cfg, co) == Coord(Quot(co.x, cfg.podShape.x), Quot(co.y, cfg.podShape.y))
    ensures TileInPod(cfg, co) == Coord(Rem(co.x, cfg.podShape.x), Rem(co.y, cfg.podShape.y))
  {
    ShiftsAreDivision(co.x, TileWidth(cfg).x);
    ShiftsAreDivision(co.y, TileWidth(cfg).y);
  }

  // Every core of a pod maps back to that pod.
  lemma CoreBelongsToPod(cfg: Geometry, pod: Coord, co: Coord)
    requires Valid(cfg) && InRect(co, VcoreOrigin(cfg, pod), cfg.podShape)
    ensures IsVanillaCore(cfg, co) && PodOf(cfg, co) == pod
    ensures TileInPod(cfg, co) == Coord(co.x - VcoreOrigin(cfg, pod).x, co.y - VcoreOrigin(cfg, pod).y)
  {
    var og := VcoreOrigin(cfg, pod);
    OriginIs(cfg, pod);
    Divide(cfg, co);
    DivModUnique(co.x, cfg.podShape.x, 1 + pod.x, co.x - og.x);
    DivModUnique(co.y, cfg.podShape.y, 1 + 2 * pod.y, co.y - og.y);
  }

  // ---------------------------------------------------------------- DRAM banks

  function NorthY(cfg: Geometry, pod: Coord): nat
    requires cfg.podShape.x > 0 && cfg.podShape.y > 0
  {
    VcoreOrigin(cfg, pod).y - 1
  }

  function SouthY(cfg: Geometry, pod: Coord): nat
    requires cfg.podShape.x > 0 && cfg.podShape.y > 0
  {
    VcoreOrigin(cfg, pod).y + cfg.podShape.y
  }

  /** The banks of a pod: a row above its cores and a row below. */
  ghost predicate IsBank(cfg: Geometry, pod: Coord, co: Coord)
    requires cfg.podShape.x > 0 && cfg.podShape.y > 0
  {
    var og := VcoreOrigin(cfg, pod);
    og.x <= co.x < og.x + cfg.podShape.x && (co.y == NorthY(cfg, pod) || co.y == SouthY(cfg, pod))
  }

  lemma BankBelongsToPod(cfg: Geometry, pod: Coord, co: Coord)
    requires Valid(cfg) && IsPod(cfg, pod) && IsBank(cfg, pod, co)
    ensures IsDram(cfg, co) && PodOf(cfg, co) == pod && !IsVanillaCore(cfg, co)
    ensures IsDramSouth(cfg, co) <==> co.y == SouthY(cfg, pod)
    ensures IsDramNorth(cfg, co) <==> co.y == NorthY(cfg, pod)
    ensures TileInPod(cfg, co).x == co.x - VcoreOrigin(cfg, pod).x
  {
    hide VcoreOrigin, TileInPod, NetworkPod, TileWidth, Pow2;
    OriginIs(cfg, pod);
    BankPosition(cfg, pod, co);
  }

  // The network pod and the position inside it of a bank.
  lemma BankPosition(cfg: Geometry, pod: Coord, co: Coord)
    requires Valid(cfg) && IsBank(cfg, pod, co)
    ensures var i := co.x - VcoreOrigin(cfg, pod).x;
      if co.y == SouthY(cfg, pod) then
        && NetworkPod(cfg, co) == Coord(1 + pod.x, 2 + 2 * pod.y)
        && TileInPod(cfg, co) == Coord(i, 0) && co.y == SouthRow(cfg, pod.y)
      else
        && NetworkPod(cfg, co) == Coord(1 + pod.x, 2 * pod.y)
        && TileInPod(cfg, co) == Coord(i, cfg.podShape.y - 1)
  {
    var h := cfg.podShape.y;
    OriginIs(cfg, pod);
    Divide(cfg, co);
    Rows(h, pod.y);
    DivModUnique(co.x, cfg.podShape.x, 1 + pod.x, co.x - VcoreOrigin(cfg, pod).x);
    if co.y == SouthY(cfg, pod) {
      DivModUnique(co.y, h, 2 + 2 * pod.y, 0);
    } else {
      DivModUnique(co.y, h, 2 * pod.y, h - 1);
    }
  }

  function PodDramId(cfg: Geometry, co: Coord): nat
    requires cfg.podShape.x > 0 && cfg.podShape.y > 0
  {
    if IsDramNorth(cfg, co) then TileInPod(cfg, co).x else TileInPod(cfg, co).x + cfg.podShape.x
  }

  function DramId(cfg: Geometry, co: Coord): nat
    requires cfg.podShape.x > 0 && cfg.podShape.y > 0
  {
    ToIndex(PodOf(cfg, co), cfg.pods) * BanksPerPod(cfg) + PodDramId(cfg, co)
  }

  function PodDram(cfg: Geometry, pod: Coord, id: nat): Coord
    requires cfg.podShape.x > 0 && cfg.podShape.y > 0
  {
    var og := VcoreOrigin(cfg, pod);
    Coord(og.x + Rem(id, cfg.podShape.x), if Quot(id, cfg.podShape.x) != 0 then og.y + cfg.podShape.y else og.y - 1)
  }

  function BanksPerPod(cfg: Geometry): nat { cfg.podShape.x * 2 }

  function Dram(cfg: Geometry, id: nat): Coord
    requires cfg.podShape.x > 0 && cfg.podShape.y > 0 && cfg.pods.y > 0
  {
    PodDram(cfg, FromIndex(Quot(id, BanksPerPod(cfg)), cfg.pods), Rem(id, BanksPerPod(cfg)))
  }

  function NumPods(cfg: Geometry): nat { cfg.pods.x * cfg.pods.y }

  function NumDrams(cfg: Geometry): nat { NumPods(cfg) * BanksPerPod(cfg) }

  // Splitting a flat number into a block number and an offset below n.
  lemma BlockOffset(blocks: nat, n: nat, p: nat, i: nat)
    requires p < blocks && i < n
    ensures p * n + i < blocks * n && Quot(p * n + i, n) == p && Rem(p * n + i, n) == i
  {
    DivModUnique(p * n + i, n, p, i);
    ProductSign(blocks - p - 1, n);
    assert (blocks - p - 1) * n == blocks * n - p * n - n;
  }

  lemma BlockOfOffset(blocks: nat, n: nat, id: nat) returns (p: nat, i: nat)
    requires n > 0 && id < blocks * n
    ensures p < blocks && i < n && id == p * n + i && Quot(id, n) == p && Rem(id, n) == i
  {
    p, i := Quot(id, n), Rem(id, n);
    QuotRem(id, n);
    FactorsOrdered(blocks, p + 1, n);
  }

  // Inside one pod, ids 0..2*width-1 and bank coordinates determine each other.
  lemma PodDramRoundTrip(cfg: Geometry, pod: Coord, co: Coord)
    requires Valid(cfg) && IsPod(cfg, pod) && IsBank(cfg, pod, co)
    ensures PodDramId(cfg, co) < 2 * cfg.podShape.x
    ensures PodDram(cfg, pod, PodDramId(cfg, co)) == co
  {
    BankBelongsToPod(cfg, pod, co);
    var w, i := cfg.podShape.x, co.x - VcoreOrigin(cfg, pod).x;
    if co.y == NorthY(cfg, pod) {
      DivModUnique(i, w, 0, i);
    } else {
      DivModUnique(i + w, w, 1, i);
    }
  }

  // Banks are numbered along the row above the pod, then along the row below it.
  lemma PodDramIsNumber(cfg: Geometry, pod: Coord, id: nat)
    requires Valid(cfg) && id < 2 * cfg.podShape.x
    ensures var w, h := cfg.podShape.x, cfg.podShape.y; var co := PodDram(cfg, pod, id);
      if id < w then co.x == (1 + pod.x) * w + id && co.y == (1 + 2 * pod.y) * h - 1
      else co.x == (1 + pod.x) * w + id - w && co.y == (2 + 2 * pod.y) * h
  {
    var w := cfg.podShape.x;
    OriginIs(cfg, pod);
    if id < w { DivModUnique(id, w, 0, id); } else { DivModUnique(id, w, 1, id - w); }
  }

  lemma PodDramIdRoundTrip(cfg: Geometry, pod: Coord, id: nat)
    requires Valid(cfg) && IsPod(cfg, pod) && id < 2 * cfg.podShape.x
    ensures IsBank(cfg, pod, PodDram(cfg, pod, id)) && PodDramId(cfg, PodDram(cfg, pod, id)) == id
  {
    var w := cfg.podShape.x;
    if id < w { DivModUnique(id, w, 0, id); } else { DivModUnique(id, w, 1, id - w); }
    BankBelongsToPod(cfg, pod, PodDram(cfg, pod, id));
  }

  // The device-wide bank id is a bijection between 0..NumDrams-1 and the banks
  // of all pods.
  lemma DramRoundTrip(cfg: Geometry, pod: Coord, co: Coord)
    requires Valid(cfg) && IsPod(cfg, pod) && IsBank(cfg, pod, co)
    ensures DramId(cfg, co) < NumDrams(cfg) && Dram(cfg, DramId(cfg, co)) == co
  {
    BankBelongsToPod(cfg, pod, co);
    PodDramRoundTrip(cfg, pod, co);
    IndexRoundTrip(pod, cfg.pods);
    BlockOffset(NumPods(cfg), BanksPerPod(cfg), ToIndex(pod, cfg.pods), PodDramId(cfg, co));
  }

  lemma DramIdRoundTrip(cfg: Geometry, id: nat)
    requires Valid(cfg) && id < NumDrams(cfg)
    ensures exists pod :: IsPod(cfg, pod) && IsBank(cfg, pod, Dram(cfg, id))
    ensures DramId(cfg, Dram(cfg, id)) == id
  {
    var p, i := BlockOfOffset(NumPods(cfg), BanksPerPod(cfg), id);
    CoordRoundTrip(p, cfg.pods);
    var pod := FromIndex(p, cfg.pods);
    BankIdRoundTrip(cfg, pod, i);
    assert IsPod(cfg, pod) && IsBank(cfg, pod, Dram(cfg, id));
  }

  lemma BankIdRoundTrip(cfg: Geometry, pod: Coord, i: nat)
    requires Valid(cfg) && IsPod(cfg, pod) && i < BanksPerPod(cfg)
    ensures var co := PodDram(cfg, pod, i);
      IsBank(cfg, pod, co) && DramId(cfg, co) == ToIndex(pod, cfg.pods) * BanksPerPod(cfg) + i
  {
    PodDramIdRoundTrip(cfg, pod, i);
    BankBelongsToPod(cfg, pod, PodDram(cfg, pod, i));
  }

  // ---------------------------------------------------------------- iteration

  function DramStart(cfg: Geometry, pod: Coord): Coord
    requires cfg.podShape.x > 0 && cfg.podShape.y > 0
  {
    Coord(VcoreOrigin(cfg, pod).x, NorthY(cfg, pod))
  }

  predicate DramStop(cfg: Geometry, pod: Coord, pos: Coord)
    requires cfg.podShape.x > 0 && cfg.podShape.y > 0
  {
    var og := VcoreOrigin(cfg, pod);
    pos.x >= og.x + cfg.podShape.x || pos.y >= og.y + cfg.podShape.y + 1
  }

  function DramNext(cfg: Geometry, pod: Coord, pos: Coord): Coord
    requires cfg.podShape.x > 0 && cfg.podShape.y > 0
  {
    var og := VcoreOrigin(cfg, pod);
    if pos.x + 1 >= og.x + cfg.podShape.x && pos.y == NorthY(cfg, pod)
    then Coord(og.x, og.y + cfg.podShape.y)
    else Coord(pos.x + 1, pos.y)
  }

  // The k-th position of the iteration is bank k of the pod; position 2*width
  // is past the end.
  ghost function DramPosition(cfg: Geometry, pod: Coord, k: nat): Coord
    requires cfg.podShape.x > 0 && cfg.podShape.y > 0
  {
    if k == 0 then DramStart(cfg, pod) else DramNext(cfg, pod, DramPosition(cfg, pod, k - 1))
  }

  // The iteration stops after exactly 2*width steps and visits bank k at step k.
  lemma {:induction false} DramIterationIsExact(cfg: Geometry, pod: Coord, k: nat)
    requires Valid(cfg) && IsPod(cfg, pod) && k <= 2 * cfg.podShape.x
    ensures DramStop(cfg, pod, DramPosition(cfg, pod, k)) <==> k == 2 * cfg.podShape.x
    ensures k < 2 * cfg.podShape.x ==> DramPosition(cfg, pod, k) == PodDram(cfg, pod, k)
    ensures k == 2 * cfg.podShape.x ==>
      DramPosition(cfg, pod, k) == Coord(VcoreOrigin(cfg, pod).x + cfg.podShape.x, SouthY(cfg, pod))
  {
    var w := cfg.podShape.x;
    if k < w { DivModUnique(k, w, 0, k); } else if k < 2 * w { DivModUnique(k, w, 1, k - w); }
    if k > 0 {
      DramIterationIsExact(cfg, pod, k - 1);
      if k - 1 < w { DivModUnique(k - 1, w, 0, k - 1); } else { DivModUnique(k - 1, w, 1, k - 1 - w); }
    }
  }
}
