// Translation between the virtual addresses that tiles use (EVA) and network
// physical addresses (NPA).
module EvaMap {
  import opened Bits
  import opened Coordinates
  import opened PodGeometry

  datatype Npa = Npa(x: nat, y: nat, epa: nat)

  /** The parts of the configuration that address translation reads. */
  datatype Config = Config(
    geo: Geometry, stripeBytes: nat, networkAddrBits: nat,
    dramEnabled: bool, vcacheBytes: nat, dramBytes: nat)

  datatype TranslationStatus = Fail | Invalid

  /** An address with the number of contiguous bytes from it, or an error. */
  datatype Translation = Ok(npa: Npa, size: nat) | Err(status: TranslationStatus)

  const DRAM_BITIDX: nat := 31
  const DMEM_SIZE: nat := 0x1000
  const EPA_LOGSZ: nat := 18
  const GLOBAL_EPA_LOGSZ: nat := 16
  const CSR_FREEZE: nat := 0x20000

  // Fields of global and group addresses.
  const GLOBAL_X_BITIDX: nat := GLOBAL_EPA_LOGSZ
  const GLOBAL_Y_BITIDX: nat := GLOBAL_X_BITIDX + 7
  const GLOBAL_BITIDX: nat := GLOBAL_Y_BITIDX + 7
  const GROUP_X_BITIDX: nat := EPA_LOGSZ
  const GROUP_Y_BITIDX: nat := GROUP_X_BITIDX + 6
  const GROUP_BITIDX: nat := GROUP_Y_BITIDX + 5

  function StripeLog(cfg: Config): nat
    requires cfg.stripeBytes > 0
  {
    CeilLog2(cfg.stripeBytes)
  }

  function XDimLog(cfg: Config): nat
    requires cfg.geo.podShape.x > 0
  {
    CeilLog2(cfg.geo.podShape.x)
  }

  // Width of a bank's byte address.
  function DramAddrBits(cfg: Config): nat
    requires cfg.networkAddrBits > 0 && cfg.vcacheBytes > 0
  {
    if cfg.dramEnabled then cfg.networkAddrBits - 1 + 2 else CeilLog2(cfg.vcacheBytes)
  }

  // Bits of an EVA below the bank-address part: stripe offset, column, and side.
  function FieldShift(cfg: Config): nat
    requires cfg.stripeBytes > 0 && cfg.geo.podShape.x > 0
  {
    StripeLog(cfg) + XDimLog(cfg) + 1
  }

  predicate Sane(cfg: Config) {
    && cfg.stripeBytes > 0 && cfg.networkAddrBits > 0 && cfg.vcacheBytes > 0
    && cfg.geo.podShape.x > 0 && cfg.geo.podShape.y > 0
  }

  // The fields fit below the DRAM bit, and the size of a bank fits an int.
  ghost predicate Valid(cfg: Config) {
    && Sane(cfg) && PodGeometry.Valid(cfg.geo)
    && FieldShift(cfg) <= DRAM_BITIDX && DramAddrBits(cfg) <= 30
  }

  // ---------------------------------------------------------------- DRAM

  function EvaX(cfg: Config, src: Coord, eva: nat): nat
    requires Sane(cfg)
  {
    Low(Shr(eva, StripeLog(cfg)), XDimLog(cfg)) + VcoreOrigin(cfg.geo, PodOf(cfg.geo, src)).x
  }

  function EvaY(cfg: Config, src: Coord, eva: nat): nat
    requires Sane(cfg)
  {
    var pod := PodOf(cfg.geo, src);
    if Low(Shr(eva, StripeLog(cfg) + XDimLog(cfg)), 1) != 0 then SouthY(cfg.geo, pod) else NorthY(cfg.geo, pod)
  }

  function EvaEpa(cfg: Config, eva: nat): nat
    requires Sane(cfg)
  {
    Or(Low(eva, StripeLog(cfg)), Shl(Shr(Low(eva, DRAM_BITIDX), FieldShift(cfg)), StripeLog(cfg)))
  }

  function EvaToNpaDram(cfg: Config, src: Coord, eva: nat): Translation
    requires Sane(cfg)
  {
    var og := VcoreOrigin(cfg.geo, PodOf(cfg.geo, src));
    var x := EvaX(cfg, src, eva);
    if x > og.x + cfg.geo.podShape.x - 1 || x < og.x then Err(Invalid)
    else if EvaEpa(cfg, eva) >= Pow2(DramAddrBits(cfg)) then Err(Invalid)
    else
      var stripe := Pow2(StripeLog(cfg));
      Ok(Npa(x, EvaY(cfg, src, eva), EvaEpa(cfg, eva)), stripe - Low(eva, StripeLog(cfg)))
  }

  // ---------------------------------------------------------------- tiles

  /** A tile's own address space: data memory from 0, and three registers. */
  function EvaToEpaTile(eva: nat, bits: nat): Translation {
    var epa := Low(eva, bits);
    if epa < DMEM_SIZE then Ok(Npa(0, 0, epa), DMEM_SIZE - epa)
    else if epa == CSR_FREEZE || epa == CSR_FREEZE + 4 || epa == CSR_FREEZE + 8 then Ok(Npa(0, 0, epa), 4)
    else Err(Fail)
  }

  function At(t: Translation, x: nat, y: nat): Translation {
    if t.Ok? then Ok(t.npa.(x := x, y := y), t.size) else t
  }

  function EvaToNpaGlobal(eva: nat): Translation {
    At(EvaToEpaTile(eva, GLOBAL_EPA_LOGSZ), Low(Shr(eva, GLOBAL_X_BITIDX), 7), Low(Shr(eva, GLOBAL_Y_BITIDX), 7))
  }

  function EvaToNpaGroup(cfg: Config, origin: Coord, mapOrigin: Coord, eva: nat): Translation {
    var x := Low(Shr(eva, GROUP_X_BITIDX), 6) + mapOrigin.x;
    var y := Low(Shr(eva, GROUP_Y_BITIDX), 5) + mapOrigin.y;
    if cfg.geo.podShape.x + origin.x < x || cfg.geo.podShape.y + origin.y < y then Err(Fail)
    else At(EvaToEpaTile(eva, EPA_LOGSZ), x, y)
  }

  /** The translation of an EVA issued by tile src; the top set bit decides the
      kind of address. The core origin and the map's origin matter to group
      addresses only. */
  function EvaToNpa(cfg: Config, coreOrigin: Coord, mapOrigin: Coord, src: Coord, eva: nat): Translation
    requires Sane(cfg)
  {
    if Low(Shr(eva, DRAM_BITIDX), 1) != 0 then EvaToNpaDram(cfg, src, eva)
    else if Low(Shr(eva, GLOBAL_BITIDX), 1) != 0 then EvaToNpaGlobal(eva)
    else if Low(Shr(eva, GROUP_BITIDX), 1) != 0 then EvaToNpaGroup(cfg, coreOrigin, mapOrigin, eva)
    else if Shr(eva, EPA_LOGSZ) == 0 then At(EvaToEpaTile(eva, EPA_LOGSZ), src.x, src.y)
    else Err(Fail)
  }

  // ---------------------------------------------------------------- back

  // Columns of the pod that contains the pod origin of tgt.
  function DramColumns(cfg: Config, tgt: Coord): nat
    requires Sane(cfg)
  {
    var og := VcoreOrigin(cfg.geo, PodOf(cfg.geo, tgt));
    VcoreOrigin(cfg.geo, PodOf(cfg.geo, og)).x
  }

  predicate NpaIsDram(cfg: Config, tgt: Coord, npa: Npa)
    requires Sane(cfg)
  {
    && IsDram(cfg.geo, Coord(npa.x, npa.y))
    && npa.epa < (if cfg.dramEnabled then cfg.dramBytes else cfg.vcacheBytes)
    && DramColumns(cfg, tgt) <= npa.x <= DramColumns(cfg, tgt) + cfg.geo.podShape.x - 1
  }

  /** The EVA of a DRAM address, with each field or-ed into a 32-bit word. */
  function NpaToEvaDram(cfg: Config, tgt: Coord, npa: Npa): nat
    requires Sane(cfg) && npa.x >= DramColumns(cfg, tgt)
  {
    var sl, xd := StripeLog(cfg), XDimLog(cfg);
    var south := if IsDramSouth(cfg.geo, Coord(npa.x, npa.y)) then 1 else 0;
    var addr := Low(npa.epa, sl);
    var addr := Or(addr, Low(Shl(npa.x - DramColumns(cfg, tgt), sl), 32));
    var addr := Or(addr, Shl(south, sl + xd));
    var addr := Or(addr, Low(Shl(Shr(npa.epa, sl), sl + xd + 1), 32));
    Or(addr, Shl(1, DRAM_BITIDX))
  }

  /** The EVA of a host or tile address. */
  function GlobalEva(npa: Npa): nat {
    Or(Or(Or(npa.epa, Low(Shl(npa.x, GLOBAL_X_BITIDX), 32)), Low(Shl(npa.y, GLOBAL_Y_BITIDX), 32)), Shl(1, GLOBAL_BITIDX))
  }

  datatype MaybeEva = Some(eva: nat) | None

  function NpaToEva(cfg: Config, tgt: Coord, npa: Npa): MaybeEva
    requires Sane(cfg)
  {
    if NpaIsDram(cfg, tgt, npa) then Some(NpaToEvaDram(cfg, tgt, npa))
    else if Coord(npa.x, npa.y) == cfg.geo.host then Some(GlobalEva(npa))
    else if (Coord(npa.x, npa.y) == tgt || IsVanillaCore(cfg.geo, Coord(npa.x, npa.y))) && npa.epa < DMEM_SIZE then
      Some(GlobalEva(npa))
    else None
  }

  // ---------------------------------------------------------------- fields

  /** A word made of stripe offset, column, side, and bank block. */
  ghost function Join(sl: nat, xd: nat, off: nat, col: nat, side: nat, block: nat): nat {
    off + Shl(col + Shl(side + 2 * block, xd), sl)
  }

  // Peeling off one field: what is left is the rest of the word.
  lemma PeelField(t: nat, q: nat, k: nat, e: nat, done: nat, word: nat)
    requires t < Pow2(k) && e == t + Shl(q, k) && e == Shr(word, done)
    ensures Low(Shr(word, done), k) == t && Shr(word, done + k) == q
  {
    hide Shr, Low, Shl, Pow2, Or;
    LowShrUnique(t, q, k);
    ShrTwice(word, done, k);
  }

  lemma FieldsOfJoin(sl: nat, xd: nat, off: nat, col: nat, side: nat, block: nat, e: nat)
    requires off < Pow2(sl) && col < Pow2(xd) && side < 2
    requires e == Join(sl, xd, off, col, side, block)
    ensures Low(e, sl) == off && Low(Shr(e, sl), xd) == col
    ensures Low(Shr(e, sl + xd), 1) == side && Shr(e, sl + xd + 1) == block
  {
    hide Shr, Low, Shl, Pow2, Or;
    var b := side + 2 * block;
    var a := col + Shl(b, xd);
    assert Low(e, sl) == off && Shr(e, sl) == a by { LowShrUnique(off, a, sl); }
    assert Low(Shr(e, sl), xd) == col && Shr(e, sl + xd) == b by { PeelField(col, b, xd, a, sl, e); }
    assert Low(Shr(e, sl + xd), 1) == side && Shr(e, sl + xd + 1) == block by {
      OneShl(block);
      PeelField(side, block, 1, b, sl + xd, e);
    }
  }

  lemma JoinOfFields(sl: nat, xd: nat, e: nat)
    ensures e == Join(sl, xd, Low(e, sl), Low(Shr(e, sl), xd), Low(Shr(e, sl + xd), 1), Shr(e, sl + xd + 1))
  {
    hide Shr, Low, Shl, Pow2, Or;
    LowShr(e, sl);
    LowShr(Shr(e, sl), xd);
    OneShift(Shr(e, sl + xd));
    ShrTwice(e, sl, xd);
    ShrTwice(e, sl + xd, 1);
  }

  lemma JoinIsSum(sl: nat, xd: nat, off: nat, col: nat, side: nat, block: nat)
    ensures Join(sl, xd, off, col, side, block)
         == off + Shl(col, sl) + Shl(side, sl + xd) + Shl(block, sl + xd + 1)
  {
    hide Shr, Low, Shl, Pow2, Or;
    ShlOfSum(col, Shl(side + 2 * block, xd), sl);
    ShlSum(side + 2 * block, xd, sl);
    ShlOfSum(side, 2 * block, sl + xd);
    ShlSum(block, 1, sl + xd);
    OneShl(block);
  }

  // ---------------------------------------------------------------- what translation does

  /** A DRAM EVA of a pod, taken apart. */
  datatype Fields = Fields(off: nat, col: nat, side: nat, block: nat)

  ghost predicate InFields(cfg: Config, f: Fields)
    requires Sane(cfg)
  {
    f.off < Pow2(StripeLog(cfg)) && f.col < Pow2(XDimLog(cfg)) && f.side < 2
  }

  // Width of the bank-block field.
  ghost function BlockBits(cfg: Config): int
    requires Sane(cfg)
  {
    DRAM_BITIDX - FieldShift(cfg)
  }

  ghost function EvaOf(cfg: Config, f: Fields): nat
    requires Sane(cfg) && FieldShift(cfg) <= DRAM_BITIDX
  {
    Join(StripeLog(cfg), XDimLog(cfg), f.off, f.col, f.side, f.block + Pow2(BlockBits(cfg)))
  }

  ghost function FieldsOf(cfg: Config, eva: nat): Fields
    requires Sane(cfg) && FieldShift(cfg) <= DRAM_BITIDX
  {
    var sl, xd := StripeLog(cfg), XDimLog(cfg);
    Fields(Low(eva, sl), Low(Shr(eva, sl), xd), Low(Shr(eva, sl + xd), 1), Low(Shr(eva, sl + xd + 1), BlockBits(cfg)))
  }

  ghost predicate IsDramEva(eva: nat) { Pow2(DRAM_BITIDX) <= eva < TWO32 }

  lemma Pow2Of31()
    ensures Pow2(DRAM_BITIDX) == 0x8000_0000 && Pow2(DRAM_BITIDX + 1) == TWO32
  {
    assert Pow2(8) == 0x100;
    var n := 8;
    Pow2Sum(n, n);
    Pow2Sum(2 * n, n);
    Pow2Sum(3 * n, n - 1);
    assert Pow2(7) == 0x80;
  }

  // A DRAM EVA is its fields; fields with a block that fits make a DRAM EVA.
  lemma EvaOfFields(cfg: Config, eva: nat)
    requires Valid(cfg) && IsDramEva(eva)
    ensures var f := FieldsOf(cfg, eva); InFields(cfg, f) && f.block < Pow2(BlockBits(cfg)) && EvaOf(cfg, f) == eva
  {
    hide Shr, Low, Shl, Pow2, Or;
    var sl, xd, shift := StripeLog(cfg), XDimLog(cfg), FieldShift(cfg);
    var top := Shr(eva, shift);
    JoinOfFields(sl, xd, eva);
    Pow2Of31();
    LowShr(eva, shift);
    SumBelow(Low(eva, shift), top, shift, BlockBits(cfg));
    SumBelow(Low(eva, shift), top, shift, BlockBits(cfg) + 1);
    LowShr(top, BlockBits(cfg));
    TopIsOne(top, BlockBits(cfg));
    OneBit(Shr(eva, sl + xd));
  }

  lemma TopIsOne(a: nat, k: nat)
    requires Pow2(k) <= a < Pow2(k + 1)
    ensures a == Low(a, k) + Pow2(k)
  {
    LowIsSmall(a - Pow2(k), k);
    BitIsPow2(k);
    LowShrUnique(a - Pow2(k), 1, k);
  }

  lemma FieldsOfEva(cfg: Config, f: Fields)
    requires Valid(cfg) && InFields(cfg, f) && f.block < Pow2(BlockBits(cfg))
    ensures IsDramEva(EvaOf(cfg, f)) && FieldsOf(cfg, EvaOf(cfg, f)) == f
  {
    hide Shr, Low, Shl, Pow2, Or;
    var eva := EvaOf(cfg, f);
    var k := BlockBits(cfg);
    FieldsOfJoin(StripeLog(cfg), XDimLog(cfg), f.off, f.col, f.side, f.block + Pow2(k), eva);
    assert Low(f.block + Pow2(k), k) == f.block by {
      BitIsPow2(k);
      LowShrUnique(f.block, 1, k);
    }
    HighestBit(eva, FieldShift(cfg), k, f.block);
    Pow2Of31();
  }

  lemma HighestBit(eva: nat, shift: nat, k: nat, block: nat)
    requires Shr(eva, shift) == block + Pow2(k) && block < Pow2(k)
    ensures Pow2(shift + k) <= eva < Pow2(shift + k + 1)
  {
    hide Shr, Low, Shl;
    LowShr(eva, shift);
    SumBelow(Low(eva, shift), Shr(eva, shift), shift, k);
    SumBelow(Low(eva, shift), Shr(eva, shift), shift, k + 1);
  }

  // Bank, side and bank address of a DRAM EVA issued in a pod.
  ghost function NpaOf(cfg: Config, pod: Coord, f: Fields): Npa
    requires Sane(cfg)
  {
    Npa(VcoreOrigin(cfg.geo, pod).x + f.col,
        if f.side == 1 then SouthY(cfg.geo, pod) else NorthY(cfg.geo, pod),
        f.off + Shl(f.block, StripeLog(cfg)))
  }

  lemma XDimIsWidth(cfg: Config)
    requires Valid(cfg)
    ensures Pow2(XDimLog(cfg)) == cfg.geo.podShape.x
  {
  }

  // The bank address of a DRAM EVA is its stripe offset below its block.
  lemma EpaOfFields(cfg: Config, eva: nat)
    requires Valid(cfg)
    ensures var f := FieldsOf(cfg, eva); EvaEpa(cfg, eva) == f.off + Shl(f.block, StripeLog(cfg))
  {
    hide Shr, Low, Shl, Pow2, Or;
    var f := FieldsOf(cfg, eva);
    LowOfLow(eva, FieldShift(cfg), DRAM_BITIDX);
    OrDisjoint(f.off, f.block, StripeLog(cfg));
  }

  // The translation of a DRAM EVA, field by field.
  lemma DramTranslation(cfg: Config, pod: Coord, src: Coord, eva: nat)
    requires Valid(cfg) && PodOf(cfg.geo, src) == pod
    ensures var f := FieldsOf(cfg, eva); var npa := NpaOf(cfg, pod, f);
      EvaToNpaDram(cfg, src, eva) ==
        if npa.epa >= Pow2(DramAddrBits(cfg)) then Err(Invalid) else Ok(npa, Pow2(StripeLog(cfg)) - f.off)
  {
    hide Shr, Low, Shl, Pow2, Or;
    XDimIsWidth(cfg);
    EpaOfFields(cfg, eva);
    OneBit(Shr(eva, StripeLog(cfg) + XDimLog(cfg)));
  }

  lemma OneBit(a: nat)
    ensures Low(a, 1) < 2
  {
    assert Pow2(1) == 2;
  }

  lemma PowersOfOneBit()
    ensures Pow2(0) == 1 && Pow2(1) == 2
  {
  }

  lemma DramBit(eva: nat)
    requires IsDramEva(eva)
    ensures Low(Shr(eva, DRAM_BITIDX), 1) == 1
  {
    hide Shr, Low, Shl, Pow2, Or;
    Pow2Of31();
    PowersOfOneBit();
    var n := DRAM_BITIDX;
    LowShr(eva, n);
    SumBelow(Low(eva, n), Shr(eva, n), n, 0);
    SumBelow(Low(eva, n), Shr(eva, n), n, 1);
    OneShift(Shr(eva, n));
  }

  lemma DispatchIsDram(cfg: Config, coreOrigin: Coord, mapOrigin: Coord, src: Coord, eva: nat)
    requires Valid(cfg) && IsDramEva(eva)
    ensures EvaToNpa(cfg, coreOrigin, mapOrigin, src, eva) == EvaToNpaDram(cfg, src, eva)
  {
    hide Shr, Low, Shl, Pow2, Or;
    DramBit(eva);
  }

  // ---------------------------------------------------------------- main results

  // Two DRAM EVAs of one pod never share an NPA.
  lemma StripingIsInjective(cfg: Config, src: Coord, eva: nat, eva': nat)
    requires Valid(cfg) && IsDramEva(eva) && IsDramEva(eva') && IsPod(cfg.geo, PodOf(cfg.geo, src))
    requires EvaToNpaDram(cfg, src, eva).Ok? && EvaToNpaDram(cfg, src, eva').Ok?
    requires EvaToNpaDram(cfg, src, eva).npa == EvaToNpaDram(cfg, src, eva').npa
    ensures eva == eva'
  {
    hide Shr, Low, Shl, Pow2, Or;
    var pod := PodOf(cfg.geo, src);
    DramTranslation(cfg, pod, src, eva);
    DramTranslation(cfg, pod, src, eva');
    var f, f' := FieldsOf(cfg, eva), FieldsOf(cfg, eva');
    LowShrUnique(f.off, f.block, StripeLog(cfg));
    LowShrUnique(f'.off, f'.block, StripeLog(cfg));
    EvaOfFields(cfg, eva);
    EvaOfFields(cfg, eva');
    assert f.side == f'.side;
  }

  // The bytes from an EVA up to the reported size are contiguous: the NPA of
  // eva + k is the NPA of eva moved by k.
  lemma ChunkIsContiguous(cfg: Config, src: Coord, eva: nat, k: nat)
    requires Valid(cfg) && IsDramEva(eva) && StripeLog(cfg) <= DramAddrBits(cfg)
    requires EvaToNpaDram(cfg, src, eva).Ok? && k < EvaToNpaDram(cfg, src, eva).size
    ensures IsDramEva(eva + k)
    ensures var t := EvaToNpaDram(cfg, src, eva);
      EvaToNpaDram(cfg, src, eva + k) == Ok(t.npa.(epa := t.npa.epa + k), t.size - k)
  {
    hide Shr, Low, Shl, Pow2, Or;
    var pod := PodOf(cfg.geo, src);
    var f := FieldsOf(cfg, eva);
    var g := f.(off := f.off + k);
    DramTranslation(cfg, pod, src, eva);
    EvaOfFields(cfg, eva);
    FieldsOfEva(cfg, g);
    assert EvaOf(cfg, g) == eva + k;
    DramTranslation(cfg, pod, src, eva + k);
    SumBelow(f.off, f.block, StripeLog(cfg), DramAddrBits(cfg) - StripeLog(cfg));
    SumBelow(g.off, g.block, StripeLog(cfg), DramAddrBits(cfg) - StripeLog(cfg));
  }

  // Without room for a whole stripe in a bank the reported size is too large:
  // the first DRAM address translates, and an address inside its chunk does not.
  lemma StripeMustFitBank(cfg: Config, src: Coord) returns (eva: nat, k: nat)
    requires Valid(cfg) && StripeLog(cfg) > DramAddrBits(cfg)
    ensures IsDramEva(eva) && EvaToNpaDram(cfg, src, eva).Ok?
    ensures k < EvaToNpaDram(cfg, src, eva).size && !EvaToNpaDram(cfg, src, eva + k).Ok?
  {
    hide Shr, Low, Shl, Pow2, Or;
    var pod := PodOf(cfg.geo, src);
    k := Pow2(DramAddrBits(cfg));
    var f, g := Fields(0, 0, 0, 0), Fields(k, 0, 0, 0);
    Pow2Strict(DramAddrBits(cfg), StripeLog(cfg));
    FieldsOfEva(cfg, f);
    FieldsOfEva(cfg, g);
    eva := EvaOf(cfg, f);
    assert EvaOf(cfg, g) == eva + k;
    DramTranslation(cfg, pod, src, eva);
    DramTranslation(cfg, pod, src, eva + k);
    ZeroShift(StripeLog(cfg));
  }

  lemma Pow2Strict(a: nat, b: nat)
    requires a < b
    ensures Pow2(a) < Pow2(b)
  {
    Pow2Monotone(a + 1, b);
  }

  // ---------------------------------------------------------------- round trips

  // The columns searched are those of the target's own pod.
  lemma ColumnsOfPod(cfg: Config, tgt: Coord)
    requires Valid(cfg) && IsPod(cfg.geo, PodOf(cfg.geo, tgt))
    ensures DramColumns(cfg, tgt) == VcoreOrigin(cfg.geo, PodOf(cfg.geo, tgt)).x
  {
    CoreBelongsToPod(cfg.geo, PodOf(cfg.geo, tgt), VcoreOrigin(cfg.geo, PodOf(cfg.geo, tgt)));
  }

  // Or-ing the fields of a bank address into one word.
  lemma OrOfFields(sl: nat, xd: nat, off: nat, col: nat, side: nat, block: nat)
    requires off < Pow2(sl) && col < Pow2(xd) && side < 2 && sl + xd + 1 <= DRAM_BITIDX
    ensures Or(Or(Or(Or(off, Low(Shl(col, sl), DRAM_BITIDX + 1)), Shl(side, sl + xd)),
                  Low(Shl(block, sl + xd + 1), DRAM_BITIDX + 1)), Shl(1, DRAM_BITIDX))
         == Join(sl, xd, off, col, side, Low(block, DRAM_BITIDX - (sl + xd + 1)) + Pow2(DRAM_BITIDX - (sl + xd + 1)))
  {
    hide Shr, Low, Shl, Pow2, Or;
    var n, shift := DRAM_BITIDX, sl + xd + 1;
    var k := n - shift;
    OneShl(0);
    // column
    SumBelow(0, col, sl, xd);
    Pow2Monotone(sl + xd, n + 1);
    LowIsSmall(Shl(col, sl), n + 1);
    OrDisjoint(off, col, sl);
    var a1 := off + Shl(col, sl);
    SumBelow(off, col, sl, xd);
    // side
    OrDisjoint(a1, side, sl + xd);
    var a2 := a1 + Shl(side, sl + xd);
    SumBelow(a1, side, sl + xd, 1);
    // block, cut to 32 bits
    LowOfSum(0, block, shift, k + 1);
    var b := Low(block, k + 1);
    OrDisjoint(a2, b, shift);
    SumBelow(a2, b, shift, k + 1);
    // DRAM bit
    OrTopBit(a2 + Shl(b, shift), n);
    LowOfSum(a2, b, shift, k);
    LowOfLow(block, k, k + 1);
    JoinIsSum(sl, xd, off, col, side, Low(block, k) + Pow2(k));
    ShlOfSum(Low(block, k), Pow2(k), shift);
    ShlPow2(k, shift);
    BitIsPow2(n);
  }

  // The fields of the EVA built for a bank address: the block loses the bits
  // that do not fit.
  lemma NpaToEvaFields(cfg: Config, tgt: Coord, npa: Npa)
    requires Valid(cfg) && IsPod(cfg.geo, PodOf(cfg.geo, tgt))
    requires IsBank(cfg.geo, PodOf(cfg.geo, tgt), Coord(npa.x, npa.y))
    ensures DramColumns(cfg, tgt) <= npa.x < DramColumns(cfg, tgt) + cfg.geo.podShape.x
    ensures NpaToEvaDram(cfg, tgt, npa) == EvaOf(cfg, CutFields(cfg, PodOf(cfg.geo, tgt), npa))
    ensures InFields(cfg, CutFields(cfg, PodOf(cfg.geo, tgt), npa))
    ensures CutFields(cfg, PodOf(cfg.geo, tgt), npa).block < Pow2(BlockBits(cfg))
  {
    hide Shr, Low, Shl, Pow2, Or;
    var pod := PodOf(cfg.geo, tgt);
    ColumnsOfPod(cfg, tgt);
    XDimIsWidth(cfg);
    BankBelongsToPod(cfg.geo, pod, Coord(npa.x, npa.y));
    var sl, xd := StripeLog(cfg), XDimLog(cfg);
    var side := if npa.y == SouthY(cfg.geo, pod) then 1 else 0;
    OrOfFields(sl, xd, Low(npa.epa, sl), npa.x - VcoreOrigin(cfg.geo, pod).x, side, Shr(npa.epa, sl));
  }

  ghost function CutFields(cfg: Config, pod: Coord, npa: Npa): Fields
    requires Sane(cfg) && FieldShift(cfg) <= DRAM_BITIDX && npa.x >= VcoreOrigin(cfg.geo, pod).x
  {
    var sl := StripeLog(cfg);
    Fields(Low(npa.epa, sl), npa.x - VcoreOrigin(cfg.geo, pod).x,
           if npa.y == SouthY(cfg.geo, pod) then 1 else 0, Low(Shr(npa.epa, sl), BlockBits(cfg)))
  }

  // EVA to NPA and back: every DRAM EVA that translates to a valid bank address
  // is recovered.
  lemma EvaRoundTrip(cfg: Config, coreOrigin: Coord, mapOrigin: Coord, tgt: Coord, eva: nat)
    requires Valid(cfg) && IsDramEva(eva) && IsPod(cfg.geo, PodOf(cfg.geo, tgt))
    requires EvaToNpa(cfg, coreOrigin, mapOrigin, tgt, eva).Ok?
    requires EvaToNpa(cfg, coreOrigin, mapOrigin, tgt, eva).npa.epa < (if cfg.dramEnabled then cfg.dramBytes else cfg.vcacheBytes)
    ensures NpaToEva(cfg, tgt, EvaToNpa(cfg, coreOrigin, mapOrigin, tgt, eva).npa) == Some(eva)
  {
    hide Shr, Low, Shl, Pow2, Or;
    var pod := PodOf(cfg.geo, tgt);
    var f := FieldsOf(cfg, eva);
    var npa := NpaOf(cfg, pod, f);
    DispatchIsDram(cfg, coreOrigin, mapOrigin, tgt, eva);
    DramTranslation(cfg, pod, tgt, eva);
    EvaOfFields(cfg, eva);
    XDimIsWidth(cfg);
    BankBelongsToPod(cfg.geo, pod, Coord(npa.x, npa.y));
    NpaToEvaFields(cfg, tgt, npa);
    LowShrUnique(f.off, f.block, StripeLog(cfg));
    LowIsSmall(f.block, BlockBits(cfg));
    SidesDiffer(cfg, pod);
    assert CutFields(cfg, pod, npa) == f;
  }

  lemma SidesDiffer(cfg: Config, pod: Coord)
    requires Valid(cfg)
    ensures SouthY(cfg.geo, pod) != NorthY(cfg.geo, pod)
  {
  }

  // NPA to EVA and back, for a bank of the target's own pod: the address is
  // recovered exactly when its block fits the EVA's field and it is within the
  // address range of a bank.
  lemma NpaRoundTripExactly(cfg: Config, coreOrigin: Coord, mapOrigin: Coord, tgt: Coord, npa: Npa)
    requires Valid(cfg) && IsPod(cfg.geo, PodOf(cfg.geo, tgt))
    requires IsBank(cfg.geo, PodOf(cfg.geo, tgt), Coord(npa.x, npa.y)) && NpaIsDram(cfg, tgt, npa)
    ensures NpaToEva(cfg, tgt, npa).Some?
    ensures (EvaToNpa(cfg, coreOrigin, mapOrigin, tgt, NpaToEva(cfg, tgt, npa).eva).Ok?
             && EvaToNpa(cfg, coreOrigin, mapOrigin, tgt, NpaToEva(cfg, tgt, npa).eva).npa == npa)
      <==> npa.epa < Pow2(StripeLog(cfg) + BlockBits(cfg)) && npa.epa < Pow2(DramAddrBits(cfg))
  {
    hide Shr, Low, Shl, Pow2, Or;
    var pod, sl, k := PodOf(cfg.geo, tgt), StripeLog(cfg), BlockBits(cfg);
    var f := CutFields(cfg, pod, npa);
    NpaToEvaFields(cfg, tgt, npa);
    var eva := EvaOf(cfg, f);
    FieldsOfEva(cfg, f);
    DispatchIsDram(cfg, coreOrigin, mapOrigin, tgt, eva);
    DramTranslation(cfg, pod, tgt, eva);
    var block := Shr(npa.epa, sl);
    LowShr(npa.epa, sl);
    SumBelow(f.off, block, sl, k);
    if block < Pow2(k) {
      LowIsSmall(block, k);
    } else {
      ShlMonotone(Low(block, k), block, sl);
    }
  }

  // ---------------------------------------------------------------- the finish signal

  /** Where a store to a global EVA goes. */
  function GlobalTarget(eva: nat): Npa {
    Npa(Low(Shr(eva, GLOBAL_X_BITIDX), 7), Low(Shr(eva, GLOBAL_Y_BITIDX), 7), Low(eva, GLOBAL_EPA_LOGSZ))
  }

  // A finish signal reaches the host at its own address exactly when the
  // address fits the 16-bit field of a global EVA.
  lemma SignalReachesHost(host: Coord, epa: nat)
    requires host.x < 128 && host.y < 128
    ensures GlobalTarget(GlobalEva(Npa(host.x, host.y, epa))) == Npa(host.x, host.y, epa) <==> epa < 0x1_0000
  {
    Pow2Of7And16();
    if epa < 0x1_0000 {
      GlobalFields(epa, host.x, host.y);
    }
  }

  lemma Pow2Of7And16()
    ensures Pow2(7) == 128 && Pow2(GLOBAL_EPA_LOGSZ) == 0x1_0000
  {
    assert Pow2(8) == 0x100;
    var n := 8;
    Pow2Sum(n, n);
  }

  lemma GlobalFields(epa: nat, x: nat, y: nat)
    requires epa < Pow2(GLOBAL_EPA_LOGSZ) && x < Pow2(7) && y < Pow2(7)
    ensures GlobalTarget(GlobalEva(Npa(x, y, epa))) == Npa(x, y, epa)
  {
    hide Shr, Low, Shl, Pow2, Or;
    var i, j, k := GLOBAL_X_BITIDX, GLOBAL_Y_BITIDX, GLOBAL_BITIDX;
    SumBelow(0, x, i, 7);
    SumBelow(0, y, j, 7);
    Pow2Monotone(j, 32);
    Pow2Monotone(k, 32);
    LowIsSmall(Shl(x, i), 32);
    LowIsSmall(Shl(y, j), 32);
    var a1 := epa + Shl(x, i);
    OrDisjoint(epa, x, i);
    SumBelow(epa, x, i, 7);
    OrDisjoint(a1, y, j);
    SumBelow(a1, y, j, 7);
    OrDisjoint(a1 + Shl(y, j), 1, k);
    FieldsOfGlobal(epa, x, y, a1 + Shl(y, j) + Shl(1, k));
  }

  // The fields of a global address that was put together by adding.
  lemma FieldsOfGlobal(epa: nat, x: nat, y: nat, eva: nat)
    requires epa < Pow2(GLOBAL_EPA_LOGSZ) && x < Pow2(7) && y < Pow2(7)
    requires eva == epa + Shl(x, GLOBAL_X_BITIDX) + Shl(y, GLOBAL_Y_BITIDX) + Shl(1, GLOBAL_BITIDX)
    ensures GlobalTarget(eva) == Npa(x, y, epa) && Shr(eva, GLOBAL_BITIDX) == 1
  {
    hide Shr, Low, Shl, Pow2, Or;
    var i, j := GLOBAL_X_BITIDX, GLOBAL_Y_BITIDX;
    ShlSum(1, 7, j);
    ShlOfSum(y, Shl(1, 7), j);
    var top := y + Shl(1, 7);
    ShlSum(top, 7, i);
    ShlOfSum(x, Shl(top, 7), i);
    assert Low(eva, i) == epa && Shr(eva, i) == x + Shl(top, 7) by { LowShrUnique(epa, x + Shl(top, 7), i); }
    PeelField(x, top, 7, x + Shl(top, 7), i, eva);
    PeelField(y, 1, 7, top, j, eva);
  }
}
