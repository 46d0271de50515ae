// What EVAs mean, as numbers: a tile's own memory, any tile by its coordinate, the
// tiles of a group, and DRAM.
module TileAddresses {
  import opened Bits
  import opened Coordinates
  import opened PodGeometry
  import opened EvaMap

  /** Address epa of the tile at x, y: four kilobytes of data memory, and the three
      registers that a host or a tile may use. */
  function InTile(epa: nat, x: nat, y: nat): Translation {
    if epa < 0x1000 then Ok(Npa(x, y, epa), 0x1000 - epa)
    else if epa in {0x2_0000, 0x2_0004, 0x2_0008} then Ok(Npa(x, y, epa), 4)
    else Err(Fail)
  }

  lemma Powers()
    ensures Pow2(5) == 0x20 && Pow2(6) == 0x40 && Pow2(7) == 0x80
    ensures Pow2(16) == 0x1_0000 && Pow2(18) == 0x4_0000 && Pow2(23) == 0x80_0000
    ensures Pow2(24) == 0x100_0000 && Pow2(29) == 0x2000_0000 && Pow2(30) == 0x4000_0000
  {
    assert Pow2(8) == 0x100;
    var n := 8;
    Pow2Sum(n, n);
    Pow2Sum(2 * n, 2);
    Pow2Sum(2 * n, n - 1);
    Pow2Sum(2 * n, n);
    Pow2Sum(3 * n, 5);
    Pow2Sum(3 * n, 6);
  }

  lemma ShiftIsProduct(a: nat, k: nat, p: nat)
    requires Pow2(k) == p
    ensures Shl(a, k) == p * a
  {
    ShlIsProduct(a, k);
  }

  // The fields of address, x and y, and the bit above them.
  lemma TileFields(epa: nat, x: nat, y: nat, b: nat, wx: nat, wy: nat, eva: nat)
    requires epa < Pow2(b) && x < Pow2(wx) && y < Pow2(wy)
    requires eva == epa + Shl(x, b) + Shl(y, b + wx) + Shl(1, b + wx + wy)
    ensures Low(eva, b) == epa && Low(Shr(eva, b), wx) == x && Low(Shr(eva, b + wx), wy) == y
    ensures Shr(eva, b + wx + wy) == 1
  {
    hide Shr, Low, Shl, Pow2;
    var j := b + wx;
    var top := y + Shl(1, wy);
    ShlSum(1, wy, j);
    ShlOfSum(y, Shl(1, wy), j);
    ShlSum(top, wx, b);
    ShlOfSum(x, Shl(top, wx), b);
    assert Low(eva, b) == epa && Shr(eva, b) == x + Shl(top, wx) by { LowShrUnique(epa, x + Shl(top, wx), b); }
    PeelField(x, top, wx, x + Shl(top, wx), b, eva);
    PeelField(y, 1, wy, top, j, eva);
  }

  // Bits 31, 30 and 29 of a number below 2^30.
  lemma TopBits(eva: nat)
    requires eva < 0x4000_0000
    ensures Low(Shr(eva, 31), 1) == 0 && Low(Shr(eva, 30), 1) == 0
    ensures Low(Shr(eva, 29), 1) == if eva < 0x2000_0000 then 0 else 1
  {
    hide Shr, Low, Shl, Pow2;
    Powers();
    LowIsSmall(eva, 30);
    ShrTwice(eva, 30, 1);
    OneShift(0);
    OneShift(1);
    if eva < 0x2000_0000 {
      LowIsSmall(eva, 29);
    } else {
      ShiftIsProduct(1, 29, 0x2000_0000);
      LowShrUnique(eva - 0x2000_0000, 1, 29);
    }
  }

  // The tile function of the source on any address field.
  lemma FieldInTile(epa: nat, eva: nat, bits: nat, x: nat, y: nat)
    requires Low(eva, bits) == epa
    ensures At(EvaToEpaTile(eva, bits), x, y) == InTile(epa, x, y)
  {
    hide Low;
  }

  // With the group bit, x and y count tiles from the origin of the map, and the
  // tile must not lie beyond the end of the pod.
  lemma GroupLeadsToTile(cfg: Config, coreOrigin: Coord, mapOrigin: Coord, src: Coord, epa: nat, x: nat, y: nat)
    requires Sane(cfg) && epa < 0x4_0000 && x < 64 && y < 32
    ensures EvaToNpa(cfg, coreOrigin, mapOrigin, src, 0x2000_0000 + 0x100_0000 * y + 0x4_0000 * x + epa)
      == var tile := Add(mapOrigin, Coord(x, y));
         if tile.x > coreOrigin.x + cfg.geo.podShape.x || tile.y > coreOrigin.y + cfg.geo.podShape.y then Err(Fail)
         else InTile(epa, tile.x, tile.y)
  {
    hide Shr, Low, Shl, Pow2, EvaToEpaTile, InTile;
    var eva := 0x2000_0000 + 0x100_0000 * y + 0x4_0000 * x + epa;
    Powers();
    ShiftIsProduct(x, 18, 0x4_0000);
    ShiftIsProduct(y, 24, 0x100_0000);
    ShiftIsProduct(1, 29, 0x2000_0000);
    TileFields(epa, x, y, 18, 6, 5, eva);
    TopBits(eva);
    FieldInTile(epa, eva, 18, mapOrigin.x + x, mapOrigin.y + y);
  }

  // With the global bit, x and y are the coordinate of any tile.
  lemma GlobalLeadsToTile(cfg: Config, coreOrigin: Coord, mapOrigin: Coord, src: Coord, epa: nat, x: nat, y: nat)
    requires Sane(cfg) && epa < 0x1_0000 && x < 128 && y < 128
    ensures EvaToNpa(cfg, coreOrigin, mapOrigin, src, 0x4000_0000 + 0x80_0000 * y + 0x1_0000 * x + epa) == InTile(epa, x, y)
  {
    hide Shr, Low, Shl, Pow2, EvaToEpaTile, InTile;
    var eva := 0x4000_0000 + 0x80_0000 * y + 0x1_0000 * x + epa;
    Powers();
    ShiftIsProduct(x, 16, 0x1_0000);
    ShiftIsProduct(y, 23, 0x80_0000);
    ShiftIsProduct(1, 30, 0x4000_0000);
    TileFields(epa, x, y, 16, 7, 7, eva);
    ShrTwice(eva, 30, 1);
    OneShift(1);
    OneShift(0);
    FieldInTile(epa, eva, 16, x, y);
  }

  // Without any of the top bits an address is the tile's own, or leads nowhere.
  lemma LocalLeadsToSelf(cfg: Config, coreOrigin: Coord, mapOrigin: Coord, src: Coord, eva: nat)
    requires Sane(cfg) && eva < 0x2000_0000
    ensures EvaToNpa(cfg, coreOrigin, mapOrigin, src, eva)
      == if eva < 0x4_0000 then InTile(eva, src.x, src.y) else Err(Fail)
  {
    hide Shr, Low, Shl, Pow2, EvaToEpaTile, InTile;
    Powers();
    TopBits(eva);
    LowShr(eva, 18);
    ShiftIsProduct(Shr(eva, 18), 18, 0x4_0000);
    if eva < 0x4_0000 {
      LowIsSmall(eva, 18);
      FieldInTile(eva, eva, 18, src.x, src.y);
    }
  }

  // ---------------------------------------------------------------- DRAM

  /** The size of a stripe, as a power of two. */
  function Stripe(cfg: Config): nat
    requires cfg.stripeBytes > 0
  {
    Pow2(CeilLog2(cfg.stripeBytes))
  }

  /** How many bytes of a bank have an address. */
  function BankBytes(cfg: Config): nat
    requires cfg.vcacheBytes > 0
  {
    if cfg.dramEnabled then 2 * Pow2(cfg.networkAddrBits) else Pow2(CeilLog2(cfg.vcacheBytes))
  }

  /** A byte of a pod's DRAM: column and side of its bank, block of the bank, and
      offset in the block. */
  datatype Spot = Spot(off: nat, col: nat, side: nat, block: nat)

  /** Its EVA: stripes go to the banks in turn, along the row above the pod, then along
      the row below it, then to the next block of every bank. */
  function SpotEva(cfg: Config, s: Spot): nat
    requires cfg.stripeBytes > 0
  {
    0x8000_0000 + ((2 * s.block + s.side) * cfg.geo.podShape.x + s.col) * Stripe(cfg) + s.off
  }

  predicate IsSpot(cfg: Config, s: Spot) {
    && cfg.stripeBytes > 0 && cfg.geo.podShape.y > 0
    && s.off < Stripe(cfg) && s.col < cfg.geo.podShape.x && s.side < 2 && SpotEva(cfg, s) < TWO32
  }

  /** Its NPA: the tiles of a pod begin after as many columns and rows as the pods
      before them have, with a pod's height of banks above and below each. */
  function SpotNpa(cfg: Config, pod: Coord, s: Spot): Npa
    requires IsSpot(cfg, s)
  {
    var w, h := cfg.geo.podShape.x, cfg.geo.podShape.y;
    ProductSign(2 * pod.y, h);
    ProductSign(1 + pod.x, w);
    ProductSign(s.block, Stripe(cfg));
    var above: nat := 2 * pod.y * h + h - 1;
    Npa((1 + pod.x) * w + s.col, if s.side == 0 then above else above + 1 + h, s.block * Stripe(cfg) + s.off)
  }

  /** The translation, which fails if the bank has no such address. */
  function SpotTranslation(cfg: Config, pod: Coord, s: Spot): Translation
    requires Sane(cfg) && IsSpot(cfg, s)
  {
    if SpotNpa(cfg, pod, s).epa >= BankBytes(cfg) then Err(Invalid)
    else Ok(SpotNpa(cfg, pod, s), Stripe(cfg) - s.off)
  }

  lemma BankBytesArePower(cfg: Config)
    requires Sane(cfg)
    ensures Pow2(DramAddrBits(cfg)) == BankBytes(cfg)
  {
    hide CeilLog2;
    assert cfg.networkAddrBits - 1 + 2 == cfg.networkAddrBits + 1;
  }

  lemma ScaleSum(a: nat, b: nat, w: nat, m: nat)
    ensures (a * w + b) * m == a * (w * m) + b * m
  {
    ProductAssociates(a, m, w);
    assert (a * w + b) * m == a * w * m + b * m;
    assert a * w * m == a * (w * m);
  }

  // Fields one above the other, as sums of products.
  lemma JoinIsNumber(sl: nat, xd: nat, off: nat, col: nat, side: nat, block: nat)
    ensures Join(sl, xd, off, col, side, block) == ((2 * block + side) * Pow2(xd) + col) * Pow2(sl) + off
  {
    hide Shl, Pow2;
    ShlIsProduct(side + Shl(block, 1), xd);
    ShlIsProduct(col + Shl(side + Shl(block, 1), xd), sl);
    OneShl(block);
  }

  lemma DramLeadsToBank(cfg: Config, coreOrigin: Coord, mapOrigin: Coord, src: Coord, s: Spot)
    requires EvaMap.Valid(cfg) && IsSpot(cfg, s)
    ensures EvaToNpa(cfg, coreOrigin, mapOrigin, src, SpotEva(cfg, s)) == SpotTranslation(cfg, PodOf(cfg.geo, src), s)
  {
    hide Shr, Low, Shl, Pow2, Or, CeilLog2, EvaToNpa, EvaToNpaDram, PodOf;
    var sl, xd, k := StripeLog(cfg), XDimLog(cfg), BlockBits(cfg);
    var f := Fields(s.off, s.col, s.side, s.block);
    XDimIsWidth(cfg);
    Pow2Of31();
    Pow2Sum(sl, xd);
    Pow2Sum(FieldShift(cfg), k);
    Pow2Sum(sl + xd, 1);
    PowersOfOneBit();
    JoinIsNumber(sl, xd, s.off, s.col, s.side, s.block + Pow2(k));
    HighestField(Pow2(sl), Pow2(xd), Pow2(k), 2 * s.block + s.side, s.block, s.col, s.off);
    FieldsOfEva(cfg, f);
    DispatchIsDram(cfg, coreOrigin, mapOrigin, src, SpotEva(cfg, s));
    DramTranslation(cfg, PodOf(cfg.geo, src), src, SpotEva(cfg, s));
    ShlIsProduct(s.block, sl);
    BankBytesArePower(cfg);
    OriginIs(cfg.geo, PodOf(cfg.geo, src));
  }

  // A highest field of one bit more, and how large the block below it can be.
  lemma HighestField(m: nat, w: nat, p: nat, top: nat, block: nat, col: nat, off: nat)
    requires m * w * 2 * p == 0x8000_0000 && 2 * block <= top <= 2 * block + 1
    requires 0x8000_0000 + (top * w + col) * m + off < TWO32
    ensures ((top + 2 * p) * w + col) * m + off == 0x8000_0000 + (top * w + col) * m + off
    ensures block < p
  {
    ScaleSum(top + 2 * p, col, w, m);
    ScaleSum(top, col, w, m);
    assert (top + 2 * p) * (w * m) == top * (w * m) + 2 * p * (w * m);
    assert 2 * p * (w * m) == m * w * 2 * p;
    if block >= p {
      assert (top - 2 * p) * (w * m) == top * (w * m) - 2 * p * (w * m);
      ProductSign(top - 2 * p, w * m);
    }
  }

  // ---------------------------------------------------------------- back to EVAs

  // An address in a tile's data memory becomes a global EVA and comes back; any
  // other address of a tile has no EVA.
  lemma TileRoundTrip(cfg: Config, coreOrigin: Coord, mapOrigin: Coord, src: Coord, tgt: Coord, npa: Npa)
    requires EvaMap.Valid(cfg) && npa.x < 128 && npa.y < 128 && Coord(npa.x, npa.y) != cfg.geo.host
    requires IsVanillaCore(cfg.geo, Coord(npa.x, npa.y)) || (Coord(npa.x, npa.y) == tgt && !IsDram(cfg.geo, tgt))
    ensures NpaToEva(cfg, tgt, npa)
      == if npa.epa < 0x1000 then Some(0x4000_0000 + 0x80_0000 * npa.y + 0x1_0000 * npa.x + npa.epa) else None
    ensures npa.epa < 0x1000 ==>
      EvaToNpa(cfg, coreOrigin, mapOrigin, src, NpaToEva(cfg, tgt, npa).eva) == Ok(npa, 0x1000 - npa.epa)
  {
    hide Shr, Low, Shl, Pow2, Or, GlobalEva, EvaToNpa, TileInPod;
    if npa.epa < 0x1000 {
      GlobalIsNumber(npa);
      GlobalLeadsToTile(cfg, coreOrigin, mapOrigin, src, npa.epa, npa.x, npa.y);
    }
  }

  lemma GlobalIsNumber(npa: Npa)
    requires npa.x < 128 && npa.y < 128 && npa.epa < 0x1_0000
    ensures GlobalEva(npa) == 0x4000_0000 + 0x80_0000 * npa.y + 0x1_0000 * npa.x + npa.epa
  {
    hide Shr, Low, Shl, Pow2, Or;
    Powers();
    ShiftIsProduct(npa.x, 16, 0x1_0000);
    ShiftIsProduct(npa.y, 23, 0x80_0000);
    ShiftIsProduct(1, 30, 0x4000_0000);
    Pow2Of31();
    LowIsSmall(Shl(npa.x, 16), 32);
    LowIsSmall(Shl(npa.y, 23), 32);
    OrDisjoint(npa.epa, npa.x, 16);
    OrDisjoint(npa.epa + Shl(npa.x, 16), npa.y, 23);
    OrDisjoint(npa.epa + Shl(npa.x, 16) + Shl(npa.y, 23), 1, 30);
  }

  // What is neither a tile, nor the host, nor a bank in the columns of the tile's pod,
  // has no EVA.
  lemma NoEvaElsewhere(cfg: Config, tgt: Coord, npa: Npa)
    requires EvaMap.Valid(cfg) && IsPod(cfg.geo, PodOf(cfg.geo, tgt))
    requires Coord(npa.x, npa.y) != cfg.geo.host && Coord(npa.x, npa.y) != tgt && !IsVanillaCore(cfg.geo, Coord(npa.x, npa.y))
    requires var w := cfg.geo.podShape.x; var left := (1 + PodOf(cfg.geo, tgt).x) * w;
      !IsDram(cfg.geo, Coord(npa.x, npa.y)) || npa.x < left || npa.x >= left + w
    ensures NpaToEva(cfg, tgt, npa) == None
  {
    hide PodOf, IsDram, IsVanillaCore, VcoreOrigin;
    ColumnsOfPod(cfg, tgt);
    OriginIs(cfg.geo, PodOf(cfg.geo, tgt));
  }

  /** How many bytes of a bank hold data. */
  function BankSize(cfg: Config): nat { if cfg.dramEnabled then cfg.dramBytes else cfg.vcacheBytes }

  // A byte of a bank of the tile's pod becomes its DRAM EVA, if the bank has it;
  // otherwise it has no EVA.
  lemma BankToEva(cfg: Config, tgt: Coord, s: Spot)
    requires EvaMap.Valid(cfg) && IsSpot(cfg, s)
    requires IsPod(cfg.geo, PodOf(cfg.geo, tgt)) && IsVanillaCore(cfg.geo, tgt)
    requires SpotTranslation(cfg, PodOf(cfg.geo, tgt), s).Ok?
    ensures var npa := SpotNpa(cfg, PodOf(cfg.geo, tgt), s);
      Coord(npa.x, npa.y) != cfg.geo.host ==>
        NpaToEva(cfg, tgt, npa) == if npa.epa < BankSize(cfg) then Some(SpotEva(cfg, s)) else None
  {
    hide Shr, Low, Shl, Pow2, Or, CeilLog2, EvaToNpa, PodOf, SpotNpa, IsSpot, SpotEva, NpaToEvaDram, TileInPod, IsPod;
    DramLeadsToBank(cfg, tgt, tgt, tgt, s);
    SpotIsInDram(cfg, PodOf(cfg.geo, tgt), s);
    if SpotNpa(cfg, PodOf(cfg.geo, tgt), s).epa < BankSize(cfg) {
      EvaRoundTrip(cfg, tgt, tgt, tgt, SpotEva(cfg, s));
    }
  }

  lemma SpotIsInDram(cfg: Config, pod: Coord, s: Spot)
    requires EvaMap.Valid(cfg) && IsSpot(cfg, s) && IsPod(cfg.geo, pod)
    ensures IsDramEva(SpotEva(cfg, s))
    ensures var co := Coord(SpotNpa(cfg, pod, s).x, SpotNpa(cfg, pod, s).y);
      IsDram(cfg.geo, co) && !IsVanillaCore(cfg.geo, co)
  {
    hide Pow2, CeilLog2, SpotEva, SpotNpa, Stripe, IsDram, IsVanillaCore, IsBank, IsPod;
    SpotIsHigh(cfg, s);
    SpotIsBank(cfg, pod, s);
    BankBelongsToPod(cfg.geo, pod, Coord(SpotNpa(cfg, pod, s).x, SpotNpa(cfg, pod, s).y));
  }

  lemma SpotIsHigh(cfg: Config, s: Spot)
    requires IsSpot(cfg, s)
    ensures IsDramEva(SpotEva(cfg, s))
  {
    hide Pow2, Stripe;
    Pow2Of31();
    ProductSign(2 * s.block + s.side, cfg.geo.podShape.x);
    ProductSign((2 * s.block + s.side) * cfg.geo.podShape.x + s.col, Stripe(cfg));
  }

  lemma SpotIsBank(cfg: Config, pod: Coord, s: Spot)
    requires EvaMap.Valid(cfg) && IsSpot(cfg, s)
    ensures IsBank(cfg.geo, pod, Coord(SpotNpa(cfg, pod, s).x, SpotNpa(cfg, pod, s).y))
  {
    hide VcoreOrigin, Pow2, FloorLog2, Stripe;
    OriginIs(cfg.geo, pod);
  }
}
