// The default address map seen by a tile: DRAM and the tile's own data memory
// are windows in which the copy loops are right.
module EvaWindows {
  import opened Bits
  import opened Coordinates
  import opened PodGeometry
  import opened EvaMap
  import opened RemoteRead
  import opened EvaCopy

  /** Everything that fixes a translation but the address itself. */
  datatype View = View(cfg: Config, coreOrigin: Coord, mapOrigin: Coord, src: Coord)

  // A stripe is at least a word and fits in a bank; the issuing tile is in a pod.
  ghost predicate Good(v: View) {
    && EvaMap.Valid(v.cfg) && v.cfg.stripeBytes >= 4
    && StripeLog(v.cfg) <= DramAddrBits(v.cfg) && IsPod(v.cfg.geo, PodOf(v.cfg.geo, v.src))
  }

  /** The address map of a tile. */
  function MapOf(v: View): Map {
    (eva: nat) => if Sane(v.cfg) then EvaToNpa(v.cfg, v.coreOrigin, v.mapOrigin, v.src, eva) else Err(Fail)
  }

  const DRAM_BASE: nat := 0x8000_0000

  lemma DramWindow(eva: nat)
    ensures IsDramEva(eva) <==> DRAM_BASE <= eva < TWO32
  {
    hide Pow2;
    Pow2Of31();
  }

  // ---------------------------------------------------------------- DRAM

  lemma DramMap(v: View, eva: nat)
    requires Good(v) && DRAM_BASE <= eva < TWO32
    ensures MapOf(v)(eva) == EvaToNpaDram(v.cfg, v.src, eva)
  {
    hide Shr, Low, Shl, Pow2, Or, EvaToNpa, EvaToNpaDram;
    DramWindow(eva);
    DispatchIsDram(v.cfg, v.coreOrigin, v.mapOrigin, v.src, eva);
  }

  lemma EpaIsSmall(v: View, eva: nat)
    requires Good(v) && EvaToNpaDram(v.cfg, v.src, eva).Ok?
    ensures EvaToNpaDram(v.cfg, v.src, eva).npa.epa < TWO32
  {
    hide Shr, Low, Shl, Pow2, Or;
    Pow2Of31();
    Pow2Monotone(DramAddrBits(v.cfg), DRAM_BITIDX);
  }

  lemma DramMoves(v: View, eva: nat, e: nat)
    requires Good(v) && DRAM_BASE <= eva < TWO32 && MapOf(v)(eva).Ok?
    requires eva <= e < eva + MapOf(v)(eva).size
    ensures e < TWO32 && MapOf(v)(e).Ok? && MapOf(v)(e).npa == Plus(MapOf(v)(eva).npa, e - eva)
  {
    hide Shr, Low, Shl, Pow2, Or, EvaToNpa, EvaToNpaDram;
    DramMap(v, eva);
    DramWindow(eva);
    ChunkIsContiguous(v.cfg, v.src, eva, e - eva);
    DramWindow(e);
    DramMap(v, e);
    EpaIsSmall(v, e);
  }

  lemma DramApart(v: View, e: nat, e': nat)
    requires Good(v) && DRAM_BASE <= e < TWO32 && DRAM_BASE <= e' < TWO32
    requires MapOf(v)(e).Ok? && MapOf(v)(e').Ok? && MapOf(v)(e).npa == MapOf(v)(e').npa
    ensures e == e'
  {
    hide Shr, Low, Shl, Pow2, Or, EvaToNpa, EvaToNpaDram;
    DramMap(v, e);
    DramMap(v, e');
    DramWindow(e);
    DramWindow(e');
    StripingIsInjective(v.cfg, v.src, e, e');
  }

  lemma DramWords(v: View, e: nat)
    requires Good(v) && DRAM_BASE <= e < TWO32 && MapOf(v)(e).Ok?
    ensures var t := MapOf(v)(e);
      t.size > 0 && e + t.size <= TWO32 && (e + t.size) % 4 == 0 && t.npa.epa % 4 == e % 4 && t.npa.epa < TWO32
  {
    hide Shr, Low, Shl, Pow2, Or, EvaToNpa, EvaToNpaDram;
    DramMap(v, e);
    DramTranslation(v.cfg, PodOf(v.cfg.geo, v.src), v.src, e);
    EpaIsSmall(v, e);
    StripeWords(v.cfg, e);
    DramMoves(v, e, e + (MapOf(v)(e).size - 1));
  }

  lemma StripeWords(cfg: Config, eva: nat)
    requires EvaMap.Valid(cfg) && cfg.stripeBytes >= 4
    ensures var f := FieldsOf(cfg, eva); var sl := StripeLog(cfg);
      && f.off < Pow2(sl) && (eva + (Pow2(sl) - f.off)) % 4 == 0 && (f.off + Shl(f.block, sl)) % 4 == eva % 4
  {
    hide Shr, Low, Shl, Pow2, Or;
    var sl := StripeLog(cfg);
    hide StripeLog;
    StripeIsWords(cfg);
    LowShr(eva, sl);
    ShlIsWords(Shr(eva, sl), sl);
    ShlIsWords(FieldsOf(cfg, eva).block, sl);
    BitIsPow2(sl);
    ShlIsWords(1, sl);
    WordSums(Low(eva, sl), Shl(Shr(eva, sl), sl), Pow2(sl), Shl(FieldsOf(cfg, eva).block, sl));
  }

  lemma WordSums(off: nat, base: nat, stripe: nat, block: nat)
    requires base % 4 == 0 && stripe % 4 == 0 && block % 4 == 0 && off < stripe
    ensures (off + base + (stripe - off)) % 4 == 0 && (off + block) % 4 == (off + base) % 4
  {
  }

  lemma StripeIsWords(cfg: Config)
    requires cfg.stripeBytes >= 4
    ensures StripeLog(cfg) >= 2
  {
    assert Pow2(0) == 1 && Pow2(1) == 2;
  }

  lemma {:induction false} ShlIsWords(a: nat, k: nat)
    requires k >= 2
    ensures Shl(a, k) % 4 == 0
  {
    if k > 2 { ShlIsWords(a, k - 1); } else { assert Shl(a, 2) == 2 * Shl(a, 1) == 4 * Shl(a, 0); }
  }

  // The laws of a window, from their instances.
  lemma LawsHold(tr: Map, lo: nat, hi: nat)
    requires hi <= TWO32
    requires forall e: nat, e': nat :: lo <= e < hi && tr(e).Ok? && e <= e' < e + tr(e).size ==>
      tr(e').Ok? && tr(e').npa == Plus(tr(e).npa, e' - e)
    requires forall e: nat, e': nat ::
      (lo <= e < hi && lo <= e' < hi && tr(e).Ok? && tr(e').Ok? && tr(e).npa == tr(e').npa) ==> e == e'
    requires forall e: nat :: lo <= e < hi && tr(e).Ok? ==>
      && tr(e).size > 0 && e + tr(e).size <= hi && (e + tr(e).size) % 4 == 0
      && tr(e).npa.epa % 4 == e % 4 && tr(e).npa.epa < TWO32
    ensures Lawful(tr, lo, hi)
  {
  }

  // DRAM is a lawful window for every tile of a pod.
  lemma DramIsLawful(v: View)
    requires Good(v)
    ensures Lawful(MapOf(v), DRAM_BASE, TWO32)
  {
    hide *;
    var tr := MapOf(v);
    forall e: nat, e': nat | DRAM_BASE <= e < TWO32 && tr(e).Ok? && e <= e' < e + tr(e).size
      ensures tr(e').Ok? && tr(e').npa == Plus(tr(e).npa, e' - e)
    {
      DramMoves(v, e, e');
    }
    forall e: nat, e': nat | DRAM_BASE <= e < TWO32 && DRAM_BASE <= e' < TWO32
      && tr(e).Ok? && tr(e').Ok? && tr(e).npa == tr(e').npa
      ensures e == e'
    {
      DramApart(v, e, e');
    }
    forall e: nat | DRAM_BASE <= e < TWO32 && tr(e).Ok?
      ensures && tr(e).size > 0 && e + tr(e).size <= TWO32 && (e + tr(e).size) % 4 == 0
        && tr(e).npa.epa % 4 == e % 4 && tr(e).npa.epa < TWO32
    {
      DramWords(v, e);
    }
    LawsHold(tr, DRAM_BASE, TWO32);
  }

  // A write to a range of DRAM, seen through the whole window: the bytes of the
  // range are the data, and every other byte is as it was.
  lemma DramWriteIsExact(v: View, before: Memory, after: Memory, eva: nat, data: seq<Byte>, e: nat)
    requires Good(v) && DRAM_BASE <= eva && eva + |data| <= TWO32
    requires FlatWritten(MapOf(v), before, after, eva, data)
    requires DRAM_BASE <= e < TWO32 && MapOf(v)(e).Ok?
    ensures Get(after, MapOf(v)(e).npa) == if eva <= e < eva + |data| then data[e - eva] else Get(before, MapOf(v)(e).npa)
  {
    hide MapOf, Good, Get, Plus;
    DramIsLawful(v);
  }

  // A DRAM address of a tile in a pod leads to a bank of that pod.
  lemma DramLeadsToBank(v: View, eva: nat)
    requires Good(v) && DRAM_BASE <= eva < TWO32 && MapOf(v)(eva).Ok?
    ensures IsBank(v.cfg.geo, PodOf(v.cfg.geo, v.src), Coord(MapOf(v)(eva).npa.x, MapOf(v)(eva).npa.y))
  {
    hide Shr, Low, Shl, Pow2, Or, EvaToNpa, EvaToNpaDram;
    var pod := PodOf(v.cfg.geo, v.src);
    DramMap(v, eva);
    DramTranslation(v.cfg, pod, v.src, eva);
    XDimIsWidth(v.cfg);
  }

  // ---------------------------------------------------------------- data memory

  lemma LocalTranslation(v: View, eva: nat)
    requires Good(v) && eva <= DMEM_SIZE
    ensures MapOf(v)(eva) == if eva < DMEM_SIZE then Ok(Npa(v.src.x, v.src.y, eva), DMEM_SIZE - eva) else Err(Fail)
  {
    hide Shr, Low, Shl, Pow2, Or;
    var n := 13;
    assert Pow2(n) == 0x2000 by { SmallPowers(); }
    forall k: nat | n <= k ensures Shr(eva, k) == 0 && Low(eva, k) == eva && Low(0, 1) == 0 {
      Pow2Monotone(n, k);
      LowIsSmall(eva, k);
      OneShift(0);
    }
  }

  lemma SmallPowers()
    ensures Pow2(13) == 0x2000
  {
  }

  lemma LocalIsLawful(tr: Map, x: nat, y: nat)
    requires forall e: nat :: e < DMEM_SIZE ==> tr(e) == Ok(Npa(x, y, e), DMEM_SIZE - e)
    ensures Lawful(tr, 0, DMEM_SIZE)
  {
    hide Plus, Lawful;
    forall e: nat, e': nat | 0 <= e < DMEM_SIZE && tr(e).Ok? && e <= e' < e + tr(e).size
      ensures tr(e').Ok? && tr(e').npa == Plus(tr(e).npa, e' - e)
    {
      LocalPlus(x, y, e, e');
    }
    LawsHold(tr, 0, DMEM_SIZE);
  }

  lemma LocalPlus(x: nat, y: nat, e: nat, e': nat)
    requires e <= e' < TWO32
    ensures Npa(x, y, e') == Plus(Npa(x, y, e), e' - e)
  {
  }

  // A tile's data memory is a lawful window that ends in unmapped addresses.
  lemma DmemIsLawful(v: View)
    requires Good(v)
    ensures Lawful(MapOf(v), 0, DMEM_SIZE) && !MapOf(v)(DMEM_SIZE).Ok?
    ensures forall e: nat :: e < DMEM_SIZE ==> MapOf(v)(e) == Ok(Npa(v.src.x, v.src.y, e), DMEM_SIZE - e)
  {
    hide *;
    var tr := MapOf(v);
    forall e: nat | e <= DMEM_SIZE
      ensures tr(e) == if e < DMEM_SIZE then Ok(Npa(v.src.x, v.src.y, e), DMEM_SIZE - e) else Err(Fail)
    {
      LocalTranslation(v, e);
    }
    LocalIsLawful(tr, v.src.x, v.src.y);
  }

  // ---------------------------------------------------------------- an example

  // A machine with one pod of 16 by 8 tiles, seen by its first tile, meets every
  // assumption made about configurations.
  lemma OnePodMachine() returns (v: View)
    ensures Good(v) && IsVanillaCore(v.cfg.geo, v.src) && PodOf(v.cfg.geo, v.src) == Coord(0, 0)
    ensures v.cfg == Config(Geometry(Coord(16, 8), Coord(1, 1), Coord(0, 0)), 128, 28, true, 0x1_0000, 0x2000_0000)
  {
    hide Pow2, FloorLog2, CeilLog2, PodOf, VcoreOrigin;
    var geo := Geometry(Coord(16, 8), Coord(1, 1), Coord(0, 0));
    var cfg := Config(geo, 128, 28, true, 0x1_0000, 0x2000_0000);
    var pod := Coord(0, 0);
    var src := VcoreOrigin(geo, pod);
    v := View(cfg, src, src, src);
    Logarithms();
    CoreBelongsToPod(geo, pod, src);
  }

  lemma Logarithms()
    ensures IsPow2(16) && IsPow2(8) && CeilLog2(16) == 4 && CeilLog2(32) == 5 && CeilLog2(128) == 7
  {
    assert FloorLog2(16) == 4 && FloorLog2(8) == 3 && FloorLog2(32) == 5 && FloorLog2(128) == 7;
    assert Pow2(4) == 16 && Pow2(3) == 8 && Pow2(5) == 32 && Pow2(7) == 128;
  }

  // On that machine the first address of a bank that an EVA cannot hold, 64 MiB
  // into a bank of 512 MiB, does not come back.
  lemma DeepAddressIsLost() returns (v: View, npa: Npa)
    ensures Good(v) && IsBank(v.cfg.geo, PodOf(v.cfg.geo, v.src), Coord(npa.x, npa.y))
    ensures NpaIsDram(v.cfg, v.src, npa) && NpaToEva(v.cfg, v.src, npa).Some?
    ensures var t := MapOf(v)(NpaToEva(v.cfg, v.src, npa).eva); t.Err? || t.npa != npa
  {
    hide Pow2, FloorLog2, CeilLog2, PodOf, VcoreOrigin, NpaToEva, EvaToNpa, IsDram;
    v := OnePodMachine();
    var geo, pod := v.cfg.geo, PodOf(v.cfg.geo, v.src);
    npa := Npa(16, 7, 0x400_0000);
    Logarithms();
    Megabytes();
    OriginIs(geo, pod);
    CoreBelongsToPod(geo, pod, VcoreOrigin(geo, pod));
    BankBelongsToPod(geo, pod, Coord(16, 7));
    NpaRoundTripExactly(v.cfg, v.coreOrigin, v.mapOrigin, v.src, npa);
  }

  lemma Megabytes()
    ensures Pow2(26) == 0x400_0000
  {
    var n := 13;
    assert Pow2(7) == 128 && Pow2(13) == 64 * Pow2(7);
    Pow2Sum(n, n);
  }

  // With banks of sixteen bytes and stripes of thirty-two, the first DRAM address
  // translates with a size that is too large.
  lemma SmallBankMachine() returns (cfg: Config, src: Coord, eva: nat, k: nat)
    ensures EvaMap.Valid(cfg) && IsDramEva(eva) && EvaToNpaDram(cfg, src, eva).Ok?
    ensures k < EvaToNpaDram(cfg, src, eva).size && !EvaToNpaDram(cfg, src, eva + k).Ok?
  {
    hide Pow2, FloorLog2, CeilLog2, PodOf, VcoreOrigin, EvaToNpaDram;
    cfg := Config(Geometry(Coord(16, 8), Coord(1, 1), Coord(0, 0)), 32, 28, false, 16, 16);
    src := Coord(16, 8);
    Logarithms();
    eva, k := StripeMustFitBank(cfg, src);
  }
}
