// Loading the segments of a program: DRAM segments once, data-memory segments
// on every tile, and the first instructions into every tile's icache.
module Loader {
  import opened Bits
  import opened Coordinates
  import opened PodGeometry
  import opened EvaMap
  import opened RemoteRead
  import opened EvaCopy
  import opened EvaWindows

  const PT_LOAD: nat := 1
  const PHDR_SIZE: nat := 32
  const ICACHE_BASE: nat := 0x100_0000
  const ICACHE_SIZE: nat := 0x1000

  /** A program header. */
  datatype Phdr = Phdr(ptype: nat, executable: bool, offset: nat, paddr: nat, filesz: nat, memsz: nat)

  /** An ELF object in host memory, with its program headers decoded. */
  datatype Object = Object(bytes: seq<Byte>, addr: nat, phoff: nat, phdrs: seq<Phdr>)

  datatype Segment = Segment(phdr: Phdr, data: seq<Byte>, hostAddr: nat)

  datatype Fetched = Found(segment: Segment) | TooShort

  datatype Outcome = Loaded | NoRoom | BadObject | NoProgram | TagBits | CopyFailed(status: Status)

  // ---------------------------------------------------------------- segments

  /** The segment with a given index, if the object is large enough. */
  function GetSegment(obj: Object, i: nat): Fetched
    requires i < |obj.phdrs|
  {
    var p := obj.phdrs[i];
    if |obj.bytes| < obj.phoff + |obj.phdrs| * PHDR_SIZE then TooShort
    else if |obj.bytes| < p.offset + p.filesz then TooShort
    else Found(Segment(p, obj.bytes[p.offset..p.offset + p.filesz], obj.addr + p.offset))
  }

  predicate LoadNever(p: Phdr) { p.ptype != PT_LOAD }

  predicate LoadOnce(p: Phdr) { (p.paddr / DRAM_BASE) % 2 == 1 }

  function Capacity(cfg: Config, p: Phdr): nat { if LoadOnce(p) then cfg.dramBytes else DMEM_SIZE }

  // What the ELF standard promises of a segment to load, and where it may go: a
  // range of DRAM or the start of it in data memory.
  ghost predicate Loadable(p: Phdr) {
    && p.filesz <= p.memsz < TWO32 && p.paddr < TWO32
    && (p.paddr < DMEM_SIZE || (DRAM_BASE <= p.paddr && p.paddr + p.memsz <= TWO32))
  }

  // What memory should hold: the bytes of the file, then zeros.
  ghost function Image(p: Phdr, data: seq<Byte>): seq<Byte>
    requires p.filesz <= p.memsz
  {
    data + Fill(0, p.memsz - p.filesz)
  }

  lemma SizesFit(p: Phdr)
    requires Loadable(p)
    ensures p.filesz <= p.memsz < TWO32
  {
  }

  // The window of addresses a segment lies in.
  ghost function Hi(p: Phdr): nat { if LoadOnce(p) then TWO32 else DMEM_SIZE }

  ghost function Lo(p: Phdr): nat { if LoadOnce(p) then DRAM_BASE else 0 }

  lemma Window(v: View, p: Phdr)
    requires Good(v) && Loadable(p)
    ensures Lawful(MapOf(v), Lo(p), Hi(p)) && Starts(MapOf(v), Lo(p), Hi(p), p.paddr, p.memsz)
  {
    hide MapOf, Good, Lawful;
    DramIsLawful(v);
    DmemIsLawful(v);
  }

  // ---------------------------------------------------------------- one tile

  // Two adjacent writes are one write.
  lemma WritesJoin(tr: Map, lo: nat, hi: nat, m0: Memory, m1: Memory, m2: Memory, eva: nat, a: seq<Byte>, b: seq<Byte>)
    requires Lawful(tr, lo, hi) && lo <= eva && eva + |a| + |b| <= hi
    requires FlatWritten(tr, m0, m1, eva, a) && FlatWritten(tr, m1, m2, eva + |a|, b)
    ensures FlatWritten(tr, m0, m2, eva, a + b)
  {
    hide Get;
    forall e: nat | eva <= e < eva + |a + b| ensures tr(e).Ok? && Get(m2, tr(e).npa) == (a + b)[e - eva] {
      if e < eva + |a| {
        assert !InRange(tr, eva + |a|, |b|, tr(e).npa);
      }
    }
    forall npa | !InRange(tr, eva, |a + b|, npa) ensures Get(m2, npa) == Get(m0, npa) {
      assert !InRange(tr, eva, |a|, npa) && !InRange(tr, eva + |a|, |b|, npa);
    }
  }

  // A range that is mapped lies inside its window.
  lemma MappedIsInside(tr: Map, lo: nat, hi: nat, eva: nat, n: nat)
    requires Starts(tr, lo, hi, eva, n) && Mapped(tr, eva, n)
    ensures eva + n <= hi
  {
  }

  // When a segment can be loaded for a tile over a reliable network: there is
  // capacity, both parts are whole words, and all their addresses translate.
  ghost predicate TileLoads(v: View, p: Phdr, hostAddr: nat)
    requires p.filesz <= p.memsz
  {
    && p.memsz <= (if p.paddr < 0x8000_0000 then 0x1000 else v.cfg.dramBytes)
    && CanCopy(MapOf(v), p.paddr, hostAddr, p.filesz)
    && CanCopy(MapOf(v), p.paddr + p.filesz, 0, p.memsz - p.filesz)
  }

  /** Load a segment for one tile: the bytes of the file, then zeros. */
  method LoadTileSegment(fabric: Fabric, v: View, s: Segment) returns (r: Outcome)
    requires Good(v) && Loadable(s.phdr) && |s.data| == s.phdr.filesz
    modifies fabric`mem
    ensures r == NoRoom <==> s.phdr.memsz > (if s.phdr.paddr < 0x8000_0000 then 0x1000 else v.cfg.dramBytes)
    ensures r == NoRoom ==> fabric.mem == old(fabric.mem)
    ensures r == Loaded ==> FlatWritten(MapOf(v), old(fabric.mem), fabric.mem, s.phdr.paddr, Image(s.phdr, s.data))
    ensures r == Loaded ==> TileLoads(v, s.phdr, s.hostAddr)
    ensures fabric.reliable && TileLoads(v, s.phdr, s.hostAddr) ==> r == Loaded
    ensures OnlyRange(MapOf(v), old(fabric.mem), fabric.mem, s.phdr.paddr, s.phdr.memsz)
    ensures r == Loaded || r == NoRoom || r.CopyFailed?
  {
    hide MapOf, Good, Lawful, FlatWritten, OnlyRange, CanCopy;
    NothingChanged(MapOf(v), fabric.mem, s.phdr.paddr, s.phdr.memsz);
    var p := s.phdr;
    if Capacity(v.cfg, p) < p.memsz {
      return NoRoom;
    }
    Window(v, p);
    ghost var lo, hi := Lo(p), Hi(p);
    var tr := MapOf(v);
    var st;
    ghost var done;
    st, done := EvaWrite(tr, fabric, p.paddr, s.hostAddr, s.data, lo, hi);
    PartWritten(tr, old(fabric.mem), fabric.mem, p.paddr, s.data[..done], p.paddr, p.memsz);
    if st != Success {
      return CopyFailed(st);
    }
    assert s.data[..done] == s.data;
    FileIsInside(tr, lo, hi, p, s.hostAddr);
    ghost var between := fabric.mem;
    st, done := EvaMemset(tr, fabric, p.paddr + p.filesz, 0, p.memsz - p.filesz, lo, hi);
    PartWritten(tr, between, fabric.mem, p.paddr + p.filesz, Fill(0, done), p.paddr, p.memsz);
    RangesJoin(tr, old(fabric.mem), between, fabric.mem, p.paddr, p.memsz);
    if st != Success {
      return CopyFailed(st);
    }
    FileIsInside(tr, lo, hi, p.(paddr := p.paddr + p.filesz, filesz := p.memsz - p.filesz, memsz := p.memsz - p.filesz), 0);
    WritesJoin(tr, lo, hi, old(fabric.mem), between, fabric.mem, p.paddr, s.data, Fill(0, p.memsz - p.filesz));
    return Loaded;
  }

  lemma NothingChanged(tr: Map, mem: Memory, eva: nat, n: nat)
    ensures OnlyRange(tr, mem, mem, eva, n)
  {
  }

  lemma PartWritten(tr: Map, m0: Memory, m1: Memory, eva: nat, data: seq<Byte>, eva': nat, n': nat)
    requires FlatWritten(tr, m0, m1, eva, data) && eva' <= eva && eva + |data| <= eva' + n'
    ensures OnlyRange(tr, m0, m1, eva', n')
  {
    WiderRange(tr, m0, m1, eva, |data|, eva', n');
  }

  lemma FileIsInside(tr: Map, lo: nat, hi: nat, p: Phdr, hostAddr: nat)
    requires Starts(tr, lo, hi, p.paddr, p.memsz) && p.filesz <= p.memsz && CanCopy(tr, p.paddr, hostAddr, p.filesz)
    ensures p.paddr + p.filesz <= hi && Starts(tr, lo, hi, p.paddr + p.filesz, p.memsz - p.filesz)
  {
    if p.filesz > 0 { MappedIsInside(tr, lo, hi, p.paddr, p.filesz); }
  }

  // ---------------------------------------------------------------- many tiles

  function On(v: View, tile: Coord): View { v.(src := tile) }

  // Tiles of one machine: cores of its pods.
  ghost predicate GoodTiles(v: View, tiles: seq<Coord>) {
    forall t :: t in tiles ==> Good(On(v, t)) && IsVanillaCore(v.cfg.geo, t)
  }

  ghost predicate Reaches(v: View, tiles: seq<Coord>, p: Phdr, npa: Npa) {
    exists t :: t in tiles && InRange(MapOf(On(v, t)), p.paddr, p.memsz, npa)
  }

  // Every tile sees the image at the segment's address.
  ghost predicate SegmentHolds(v: View, tiles: seq<Coord>, p: Phdr, image: seq<Byte>, mem: Memory) {
    forall t :: t in tiles ==> FlatHolds(MapOf(On(v, t)), mem, p.paddr, image)
  }

  // Only bytes of the segment on these tiles changed.
  ghost predicate OnlySegment(v: View, tiles: seq<Coord>, p: Phdr, m0: Memory, m1: Memory) {
    forall npa :: !Reaches(v, tiles, p, npa) ==> Get(m1, npa) == Get(m0, npa)
  }

  ghost predicate SegmentWritten(v: View, tiles: seq<Coord>, p: Phdr, image: seq<Byte>, m0: Memory, m1: Memory) {
    SegmentHolds(v, tiles, p, image, m1) && OnlySegment(v, tiles, p, m0, m1)
  }

  // Ranges p seen by t and p' seen by t' have no byte in common.
  ghost predicate NoOverlap(tr: Map, p: Phdr, tr': Map, p': Phdr) {
    forall e: nat, e': nat :: p.paddr <= e < p.paddr + p.memsz && p'.paddr <= e' < p'.paddr + p'.memsz
      && tr(e).Ok? && tr'(e').Ok?
      ==> tr(e).npa != tr'(e').npa
  }

  ghost predicate DisjointRanges(p: Phdr, p': Phdr) {
    p.paddr + p.memsz <= p'.paddr || p'.paddr + p'.memsz <= p.paddr
  }

  // Where a segment's bytes live: in a bank, or in the tile itself.
  lemma Home(v: View, t: Coord, p: Phdr, e: nat)
    requires Good(On(v, t)) && Loadable(p) && p.paddr <= e < p.paddr + p.memsz <= Hi(p) && MapOf(On(v, t))(e).Ok?
    ensures var npa := MapOf(On(v, t))(e).npa;
      if LoadOnce(p) then IsBank(v.cfg.geo, PodOf(v.cfg.geo, t), Coord(npa.x, npa.y)) else npa == Npa(t.x, t.y, e)
  {
    hide MapOf, Good, Lawful;
    if LoadOnce(p) {
      DramLeadsToBank(On(v, t), e);
    } else {
      DmemIsLawful(On(v, t));
    }
  }

  lemma BanksAreNotCores(geo: Geometry, pod: Coord, co: Coord)
    requires PodGeometry.Valid(geo) && IsPod(geo, pod) && IsBank(geo, pod, co)
    ensures !IsVanillaCore(geo, co)
  {
    BankBelongsToPod(geo, pod, co);
  }

  // Two loaded segments, on one tile each, share no byte: the addresses differ,
  // or the tiles do and the segments are in data memory.
  lemma SegmentsApart(v: View, t: Coord, p: Phdr, t': Coord, p': Phdr)
    requires GoodTiles(v, [t, t']) && Loadable(p) && Loadable(p')
    requires p.paddr + p.memsz <= Hi(p) && p'.paddr + p'.memsz <= Hi(p')
    requires LoadOnce(p) && LoadOnce(p') ==> t == t'
    requires DisjointRanges(p, p') || (!LoadOnce(p) && !LoadOnce(p') && t != t')
    ensures NoOverlap(MapOf(On(v, t)), p, MapOf(On(v, t')), p')
  {
    hide MapOf, Good, Lawful, IsBank, IsVanillaCore, IsPod;
    var tr, tr' := MapOf(On(v, t)), MapOf(On(v, t'));
    assert t in [t, t'] && t' in [t, t'];
    forall e: nat, e': nat | p.paddr <= e < p.paddr + p.memsz && p'.paddr <= e' < p'.paddr + p'.memsz
      && tr(e).Ok? && tr'(e').Ok?
      ensures tr(e).npa != tr'(e').npa
    {
      BytesApart(v, t, p, e, t', p', e');
    }
  }

  lemma BytesApart(v: View, t: Coord, p: Phdr, e: nat, t': Coord, p': Phdr, e': nat)
    requires Good(On(v, t)) && Good(On(v, t')) && IsVanillaCore(v.cfg.geo, t) && IsVanillaCore(v.cfg.geo, t')
    requires Loadable(p) && Loadable(p')
    requires p.paddr <= e < p.paddr + p.memsz <= Hi(p) && p'.paddr <= e' < p'.paddr + p'.memsz <= Hi(p')
    requires MapOf(On(v, t))(e).Ok? && MapOf(On(v, t'))(e').Ok?
    requires LoadOnce(p) && LoadOnce(p') ==> t == t'
    requires e != e' || (!LoadOnce(p) && !LoadOnce(p') && t != t')
    ensures MapOf(On(v, t))(e).npa != MapOf(On(v, t'))(e').npa
  {
    hide MapOf, Lawful, IsBank, IsVanillaCore, IsPod, EvaMap.Valid;
    Home(v, t, p, e);
    Home(v, t', p', e');
    var a, b := MapOf(On(v, t))(e).npa, MapOf(On(v, t'))(e').npa;
    if LoadOnce(p) && LoadOnce(p') {
      Distinct(On(v, t), e, e');
    } else if LoadOnce(p) {
      PodsAreGood(On(v, t));
      BanksAreNotCores(v.cfg.geo, PodOf(v.cfg.geo, t), Coord(a.x, a.y));
      assert Coord(b.x, b.y) == t';
    } else if LoadOnce(p') {
      PodsAreGood(On(v, t'));
      BanksAreNotCores(v.cfg.geo, PodOf(v.cfg.geo, t'), Coord(b.x, b.y));
      assert Coord(a.x, a.y) == t;
    }
  }

  lemma PodsAreGood(v: View)
    requires Good(v)
    ensures PodGeometry.Valid(v.cfg.geo) && IsPod(v.cfg.geo, PodOf(v.cfg.geo, v.src))
  {
  }

  lemma Distinct(v: View, e: nat, e': nat)
    requires Good(v) && DRAM_BASE <= e < TWO32 && DRAM_BASE <= e' < TWO32 && e != e'
    requires MapOf(v)(e).Ok? && MapOf(v)(e').Ok?
    ensures MapOf(v)(e).npa != MapOf(v)(e').npa
  {
    DramIsLawful(v);
  }

  // A write keeps what it does not overlap.
  lemma WriteKeeps(tr: Map, p: Phdr, tr': Map, p': Phdr, image': seq<Byte>, m0: Memory, m1: Memory)
    requires OnlyRange(tr, m0, m1, p.paddr, p.memsz) && NoOverlap(tr, p, tr', p') && |image'| == p'.memsz
    requires FlatHolds(tr', m0, p'.paddr, image')
    ensures FlatHolds(tr', m1, p'.paddr, image')
  {
  }

  ghost predicate Inside(p: Phdr) { p.paddr + p.memsz <= Hi(p) }

  lemma WrittenIsInside(v: View, p: Phdr, m0: Memory, m1: Memory, image: seq<Byte>)
    requires Good(v) && Loadable(p) && |image| == p.memsz && FlatWritten(MapOf(v), m0, m1, p.paddr, image)
    ensures Inside(p)
  {
    hide MapOf, Good, Lawful;
    Window(v, p);
    MappedIsInside(MapOf(v), Lo(p), Hi(p), p.paddr, p.memsz);
  }

  // Loading one more tile.
  lemma TileStep(v: View, done: seq<Coord>, t: Coord, p: Phdr, image: seq<Byte>, m0: Memory, m1: Memory, m2: Memory)
    requires GoodTiles(v, done + [t]) && Loadable(p) && |image| == p.memsz && (done == [] || !LoadOnce(p))
    requires SegmentWritten(v, done, p, image, m0, m1) && FlatWritten(MapOf(On(v, t)), m1, m2, p.paddr, image)
    ensures SegmentWritten(v, done + [t], p, image, m0, m2)
  {
    hide MapOf, Good, Lawful, On, NoOverlap, FlatHolds, InRange;
    assert t in done + [t];
    WrittenIsInside(On(v, t), p, m1, m2, image);
    forall u | u in done + [t] ensures FlatHolds(MapOf(On(v, u)), m2, p.paddr, image) {
      if u != t {
        assert u in done;
        PairIsGood(v, done + [t], t, u);
        SegmentsApart(v, t, p, u, p);
        WriteKeeps(MapOf(On(v, t)), p, MapOf(On(v, u)), p, image, m1, m2);
      }
    }
    forall npa | !Reaches(v, done + [t], p, npa) ensures Get(m2, npa) == Get(m0, npa) {
      ReachesMore(v, done, t, p, npa);
    }
  }

  lemma PairIsGood(v: View, tiles: seq<Coord>, t: Coord, u: Coord)
    requires GoodTiles(v, tiles) && t in tiles && u in tiles
    ensures GoodTiles(v, [t, u])
  {
  }

  lemma ReachesMore(v: View, done: seq<Coord>, t: Coord, p: Phdr, npa: Npa)
    requires !Reaches(v, done + [t], p, npa)
    ensures !Reaches(v, done, p, npa) && !InRange(MapOf(On(v, t)), p.paddr, p.memsz, npa)
  {
    hide MapOf, On, InRange;
    assert t in done + [t];
    forall u | u in done ensures !InRange(MapOf(On(v, u)), p.paddr, p.memsz, npa) {
      assert u in done + [t];
    }
  }

  lemma NoTiles(v: View, p: Phdr, image: seq<Byte>, mem: Memory)
    ensures SegmentWritten(v, [], p, image, mem, mem)
  {
  }

  /** Load a segment for every tile. */
  method LoadTilesSegment(fabric: Fabric, v: View, s: Segment, tiles: seq<Coord>) returns (r: Outcome)
    requires GoodTiles(v, tiles) && Loadable(s.phdr) && |s.data| == s.phdr.filesz && !LoadOnce(s.phdr)
    modifies fabric`mem
    ensures r == Loaded ==> SegmentWritten(v, tiles, s.phdr, Image(s.phdr, s.data), old(fabric.mem), fabric.mem)
    ensures r == Loaded && tiles != [] ==> Inside(s.phdr)
    ensures r == Loaded ==> TilesLoad(v, tiles, s.phdr, s.hostAddr)
    ensures fabric.reliable && TilesLoad(v, tiles, s.phdr, s.hostAddr) ==> r == Loaded
    ensures OnlySegment(v, tiles, s.phdr, old(fabric.mem), fabric.mem)
    ensures r == Loaded || r == NoRoom || r.CopyFailed?
  {
    hide MapOf, Good, FlatWritten, SegmentWritten, Loadable, On, LoadOnce, Inside, TileLoads, OnlyRange, OnlySegment;
    SizesFit(s.phdr);
    ghost var image := Image(s.phdr, s.data);
    NoTiles(v, s.phdr, image, fabric.mem);
    assert tiles[..0] == [];
    for i := 0 to |tiles|
      invariant SegmentWritten(v, tiles[..i], s.phdr, image, old(fabric.mem), fabric.mem)
      invariant i > 0 ==> Inside(s.phdr)
      invariant forall j :: 0 <= j < i ==> TileLoads(On(v, tiles[j]), s.phdr, s.hostAddr)
    {
      ghost var before := fabric.mem;
      assert tiles[..i + 1] == tiles[..i] + [tiles[i]];
      FirstTilesAreGood(v, tiles, i + 1);
      r := LoadTileSegment(fabric, On(v, tiles[i]), s);
      OnlySegmentSoFar(v, tiles, i, s.phdr, image, old(fabric.mem), before, fabric.mem);
      if r != Loaded {
        return;
      }
      TileStep(v, tiles[..i], tiles[i], s.phdr, image, old(fabric.mem), before, fabric.mem);
      WrittenIsInside(On(v, tiles[i]), s.phdr, before, fabric.mem, image);
    }
    assert tiles[..|tiles|] == tiles;
    WrittenIsOnlySegment(v, tiles, s.phdr, image, old(fabric.mem), fabric.mem);
    return Loaded;
  }

  ghost predicate TilesLoad(v: View, tiles: seq<Coord>, p: Phdr, hostAddr: nat)
    requires p.filesz <= p.memsz
  {
    forall t :: t in tiles ==> TileLoads(On(v, t), p, hostAddr)
  }

  lemma WrittenIsOnlySegment(v: View, tiles: seq<Coord>, p: Phdr, image: seq<Byte>, m0: Memory, m1: Memory)
    requires SegmentWritten(v, tiles, p, image, m0, m1)
    ensures OnlySegment(v, tiles, p, m0, m1)
  {
  }

  // Also when loading stops at tile i.
  lemma OnlySegmentSoFar(
    v: View, tiles: seq<Coord>, i: nat, p: Phdr, image: seq<Byte>, m0: Memory, m1: Memory, m2: Memory)
    requires i < |tiles| && SegmentWritten(v, tiles[..i], p, image, m0, m1)
    requires OnlyRange(MapOf(On(v, tiles[i])), m1, m2, p.paddr, p.memsz)
    ensures OnlySegment(v, tiles, p, m0, m2)
  {
    hide MapOf, On, InRange, Get;
    forall npa | !Reaches(v, tiles, p, npa) ensures Get(m2, npa) == Get(m0, npa) {
      forall u | u in tiles[..i] ensures !InRange(MapOf(On(v, u)), p.paddr, p.memsz, npa) { assert u in tiles; }
      assert tiles[i] in tiles;
    }
  }

  lemma FirstTilesAreGood(v: View, tiles: seq<Coord>, n: nat)
    requires GoodTiles(v, tiles) && n <= |tiles|
    ensures GoodTiles(v, tiles[..n])
  {
  }

  // ---------------------------------------------------------------- icache

  function IcacheBytes(data: seq<Byte>): nat { if |data| < ICACHE_SIZE then |data| else ICACHE_SIZE }

  // The first address after the icache sets no tag bit, and neither does the last
  // one written; an empty segment would.
  function SetsTag(n: nat): bool { ((ICACHE_BASE + n - 1) / 0x1000) % 0x1000 != 0 }

  function IcacheOf(t: Coord): Npa { Npa(t.x, t.y, ICACHE_BASE) }

  ghost predicate IcachesHold(tiles: seq<Coord>, data: seq<Byte>, mem: Memory) {
    forall t :: t in tiles ==> RunHolds(mem, IcacheOf(t), data[..IcacheBytes(data)])
  }

  // Nothing but icaches changed.
  ghost predicate OnlyIcaches(tiles: seq<Coord>, m0: Memory, m1: Memory) {
    forall npa: Npa :: (npa.epa < ICACHE_BASE || Coord(npa.x, npa.y) !in tiles) ==> Get(m1, npa) == Get(m0, npa)
  }

  // When the first instructions can be copied over a reliable network.
  predicate CodeLoads(size: nat, hostAddr: nat) {
    size > 0 && hostAddr % 4 == 0 && (size % 4 == 0 || size > 0x1000)
  }

  /** Write the first instructions into a tile's icache. */
  method LoadTileIcache(fabric: Fabric, data: seq<Byte>, hostAddr: nat, tile: Coord) returns (r: Outcome)
    modifies fabric`mem
    ensures r == TagBits <==> data == []
    ensures r == Loaded ==>
      RunWritten(old(fabric.mem), fabric.mem, IcacheOf(tile), data[..IcacheBytes(data)])
    ensures r == Loaded ==> CodeLoads(|data|, hostAddr)
    ensures fabric.reliable && CodeLoads(|data|, hostAddr) ==> r == Loaded
    ensures OnlyIcaches([tile], old(fabric.mem), fabric.mem)
    ensures r == Loaded || r == TagBits || r.CopyFailed?
  {
    var n := IcacheBytes(data);
    if SetsTag(n) {
      return TagBits;
    }
    var s;
    ghost var done;
    s, done := WriteMem(fabric, IcacheOf(tile), hostAddr, data[..n]);
    RunIsIcache(tile, data[..n][..done], old(fabric.mem), fabric.mem);
    if s != Success {
      return CopyFailed(s);
    }
    assert data[..n][..done] == data[..n];
    return Loaded;
  }

  lemma RunIsIcache(t: Coord, code: seq<Byte>, m0: Memory, m1: Memory)
    requires RunWritten(m0, m1, IcacheOf(t), code) && |code| <= ICACHE_SIZE
    ensures OnlyIcaches([t], m0, m1)
  {
    hide Get;
    forall npa: Npa | npa.epa < ICACHE_BASE || Coord(npa.x, npa.y) !in [t] ensures Get(m1, npa) == Get(m0, npa) {
      assert !InRun(IcacheOf(t), |code|, npa);
    }
  }

  lemma IcachesJoin(tiles: seq<Coord>, i: nat, m0: Memory, m1: Memory, m2: Memory)
    requires i < |tiles| && OnlyIcaches(tiles[..i], m0, m1) && OnlyIcaches([tiles[i]], m1, m2)
    ensures OnlyIcaches(tiles, m0, m2)
  {
    hide Get;
    assert forall t :: t in tiles[..i] || t in [tiles[i]] ==> t in tiles;
  }

  lemma IcacheStep(done: seq<Coord>, t: Coord, data: seq<Byte>, m0: Memory, m1: Memory, m2: Memory)
    requires IcachesHold(done, data, m1) && OnlyIcaches(done, m0, m1)
    requires RunWritten(m1, m2, IcacheOf(t), data[..IcacheBytes(data)])
    ensures IcachesHold(done + [t], data, m2) && OnlyIcaches(done + [t], m0, m2)
  {
    hide Get;
    var code := data[..IcacheBytes(data)];
    forall u | u in done + [t] ensures RunHolds(m2, IcacheOf(u), code) {
      if u != t {
        forall k: nat | k < |code| ensures Get(m2, Plus(IcacheOf(u), k)) == code[k] {
          assert !InRun(IcacheOf(t), |code|, Plus(IcacheOf(u), k));
        }
      }
    }
    forall npa: Npa | npa.epa < ICACHE_BASE || Coord(npa.x, npa.y) !in done + [t] ensures Get(m2, npa) == Get(m0, npa) {
      assert !InRun(IcacheOf(t), |code|, npa);
      assert t in done + [t];
    }
  }

  method LoadTilesIcache(fabric: Fabric, data: seq<Byte>, hostAddr: nat, tiles: seq<Coord>) returns (r: Outcome)
    modifies fabric`mem
    ensures r == Loaded ==> IcachesHold(tiles, data, fabric.mem)
    ensures tiles == [] || (fabric.reliable && CodeLoads(|data|, hostAddr)) ==> r == Loaded
    ensures r == Loaded ==> tiles == [] || CodeLoads(|data|, hostAddr)
    ensures OnlyIcaches(tiles, old(fabric.mem), fabric.mem)
    ensures r == Loaded || r == TagBits || r.CopyFailed?
  {
    hide RunWritten, RunHolds, Get, CodeLoads;
    for i := 0 to |tiles|
      invariant IcachesHold(tiles[..i], data, fabric.mem) && OnlyIcaches(tiles[..i], old(fabric.mem), fabric.mem)
      invariant i > 0 ==> CodeLoads(|data|, hostAddr)
    {
      ghost var before := fabric.mem;
      r := LoadTileIcache(fabric, data, hostAddr, tiles[i]);
      IcachesJoin(tiles, i, old(fabric.mem), before, fabric.mem);
      if r != Loaded {
        return;
      }
      IcacheStep(tiles[..i], tiles[i], data, old(fabric.mem), before, fabric.mem);
      assert tiles[..i + 1] == tiles[..i] + [tiles[i]];
    }
    assert tiles[..|tiles|] == tiles;
    return Loaded;
  }

  // ---------------------------------------------------------------- the program

  // The tiles a segment is loaded for: the first one only, for DRAM.
  ghost function Targets(tiles: seq<Coord>, p: Phdr): seq<Coord>
    requires tiles != []
  {
    if LoadOnce(p) then tiles[..1] else tiles
  }

  // Segments to load are well formed and share no address.
  ghost predicate WellFormed(obj: Object) {
    && (forall i :: 0 <= i < |obj.phdrs| && !LoadNever(obj.phdrs[i]) ==> Loadable(obj.phdrs[i]))
    && (forall i, j :: 0 <= i < j < |obj.phdrs| && !LoadNever(obj.phdrs[i]) && !LoadNever(obj.phdrs[j]) ==>
          DisjointRanges(obj.phdrs[i], obj.phdrs[j]))
  }

  // Segment i of the object is in memory wherever it belongs.
  ghost predicate InPlace(obj: Object, v: View, tiles: seq<Coord>, i: nat, mem: Memory)
    requires tiles != []
  {
    i < |obj.phdrs| && Inside(obj.phdrs[i]) && GetSegment(obj, i).Found? && obj.phdrs[i].filesz <= obj.phdrs[i].memsz
    && SegmentHolds(v, Targets(tiles, obj.phdrs[i]), obj.phdrs[i],
                    Image(obj.phdrs[i], GetSegment(obj, i).segment.data), mem)
  }

  ghost predicate FirstInPlace(obj: Object, v: View, tiles: seq<Coord>, k: nat, mem: Memory)
    requires tiles != []
  {
    forall i: nat :: i < k && i < |obj.phdrs| && !LoadNever(obj.phdrs[i]) ==> InPlace(obj, v, tiles, i, mem)
  }

  // Loading a segment keeps another one.
  lemma OtherSegmentKept(
    v: View, tiles: seq<Coord>, p: Phdr, tiles': seq<Coord>, p': Phdr, image': seq<Byte>, all: seq<Coord>, m0: Memory, m1: Memory)
    requires all != [] && GoodTiles(v, all) && tiles == Targets(all, p) && tiles' == Targets(all, p')
    requires Loadable(p) && Loadable(p') && Inside(p) && Inside(p') && DisjointRanges(p, p') && |image'| == p'.memsz
    requires OnlySegment(v, tiles, p, m0, m1) && SegmentHolds(v, tiles', p', image', m0)
    ensures SegmentHolds(v, tiles', p', image', m1)
  {
    hide MapOf, Good, Lawful, On, Loadable, Get;
    forall t' | t' in tiles' ensures FlatHolds(MapOf(On(v, t')), m1, p'.paddr, image') {
      var tr' := MapOf(On(v, t'));
      forall e: nat | p'.paddr <= e < p'.paddr + |image'|
        ensures tr'(e).Ok? && Get(m1, tr'(e).npa) == image'[e - p'.paddr]
      {
        forall t | t in tiles ensures !InRange(MapOf(On(v, t)), p.paddr, p.memsz, tr'(e).npa) {
          PairIsGood(v, all, t, t');
          SegmentsApart(v, t, p, t', p');
        }
      }
    }
  }

  lemma SegmentLoaded(obj: Object, v: View, tiles: seq<Coord>, k: nat, m0: Memory, m1: Memory)
    requires tiles != [] && GoodTiles(v, tiles) && WellFormed(obj) && k < |obj.phdrs| && !LoadNever(obj.phdrs[k])
    requires GetSegment(obj, k).Found? && Inside(obj.phdrs[k]) && FirstInPlace(obj, v, tiles, k, m0)
    requires SegmentWritten(v, Targets(tiles, obj.phdrs[k]), obj.phdrs[k],
                            Image(obj.phdrs[k], GetSegment(obj, k).segment.data), m0, m1)
    ensures FirstInPlace(obj, v, tiles, k + 1, m1)
  {
    hide MapOf, Good, GoodTiles, Loadable, SegmentHolds, OnlySegment, DisjointRanges, Targets, Inside;
    forall i: nat | i < k + 1 && i < |obj.phdrs| && !LoadNever(obj.phdrs[i]) ensures InPlace(obj, v, tiles, i, m1) {
      if i < k {
        var p, p' := obj.phdrs[k], obj.phdrs[i];
        DisjointIsSymmetric(p', p);
        assert InPlace(obj, v, tiles, i, m0);
        OtherSegmentKept(v, Targets(tiles, p), p, Targets(tiles, p'), p',
                         Image(p', GetSegment(obj, i).segment.data), tiles, m0, m1);
      } else {
        SizesFit(obj.phdrs[i]);
      }
    }
  }

  lemma DisjointIsSymmetric(p: Phdr, p': Phdr)
    ensures DisjointRanges(p, p') == DisjointRanges(p', p)
  {
  }

  // Loading the icaches keeps every segment.
  lemma SegmentsKeptByIcache(obj: Object, v: View, tiles: seq<Coord>, k: nat, m0: Memory, m1: Memory)
    requires tiles != [] && GoodTiles(v, tiles) && WellFormed(obj)
    requires FirstInPlace(obj, v, tiles, k, m0) && OnlyIcaches(tiles, m0, m1)
    ensures FirstInPlace(obj, v, tiles, k, m1)
  {
    hide MapOf, Good, Loadable, Get, On, IsBank, IsVanillaCore;
    forall i: nat | i < k && i < |obj.phdrs| && !LoadNever(obj.phdrs[i]) ensures InPlace(obj, v, tiles, i, m1) {
      assert InPlace(obj, v, tiles, i, m0);
      var p := obj.phdrs[i];
      forall t | t in Targets(tiles, p)
        ensures FlatHolds(MapOf(On(v, t)), m1, p.paddr, Image(p, GetSegment(obj, i).segment.data))
      {
        ImageKeptByIcache(v, tiles, t, p, Image(p, GetSegment(obj, i).segment.data), m0, m1);
      }
    }
  }

  lemma ImageKeptByIcache(v: View, tiles: seq<Coord>, t: Coord, p: Phdr, image: seq<Byte>, m0: Memory, m1: Memory)
    requires GoodTiles(v, tiles) && t in tiles && Loadable(p) && Inside(p) && |image| == p.memsz
    requires FlatHolds(MapOf(On(v, t)), m0, p.paddr, image) && OnlyIcaches(tiles, m0, m1)
    ensures FlatHolds(MapOf(On(v, t)), m1, p.paddr, image)
  {
    hide MapOf, Good, Get, IsBank, IsVanillaCore, IsPod;
    var tr := MapOf(On(v, t));
    forall e: nat | p.paddr <= e < p.paddr + |image| ensures tr(e).Ok? && Get(m1, tr(e).npa) == image[e - p.paddr] {
      Home(v, t, p, e);
      if LoadOnce(p) {
        PodsAreGood(On(v, t));
        BanksAreNotCores(v.cfg.geo, PodOf(v.cfg.geo, t), Coord(tr(e).npa.x, tr(e).npa.y));
      }
    }
  }

  // When segment i can be loaded over a reliable network.
  ghost predicate SegmentLoads(obj: Object, v: View, tiles: seq<Coord>, i: nat)
    requires tiles != [] && i < |obj.phdrs|
  {
    var p := obj.phdrs[i];
    && obj.phoff + 32 * |obj.phdrs| <= |obj.bytes| && p.offset + p.filesz <= |obj.bytes|
    && (p.ptype == 1 ==>
          p.filesz <= p.memsz
          && TilesLoad(v, if p.paddr < 0x8000_0000 then tiles else [tiles[0]], p, obj.addr + p.offset))
  }

  // When a program can be loaded: all its segments can, and one is executable, the
  // last of which can be copied to the icaches.
  ghost predicate ProgramLoads(obj: Object, v: View, tiles: seq<Coord>)
    requires tiles != []
  {
    && (forall i :: 0 <= i < |obj.phdrs| ==> SegmentLoads(obj, v, tiles, i))
    && exists k :: LastExecutable(obj, |obj.phdrs|, k) && CodeOf(obj, k)
  }

  ghost predicate CodeOf(obj: Object, k: int) {
    0 <= k < |obj.phdrs| && CodeLoads(obj.phdrs[k].filesz, obj.addr + obj.phdrs[k].offset)
  }

  // Only bytes of segments to load, on their tiles, and icaches changed.
  ghost predicate OnlyProgram(obj: Object, v: View, tiles: seq<Coord>, m0: Memory, m1: Memory)
    requires tiles != []
  {
    forall npa: Npa :: Untouched(obj, v, tiles, npa) ==> Get(m1, npa) == Get(m0, npa)
  }

  ghost predicate Untouched(obj: Object, v: View, tiles: seq<Coord>, npa: Npa)
    requires tiles != []
  {
    && (npa.epa < ICACHE_BASE || Coord(npa.x, npa.y) !in tiles)
    && forall i :: 0 <= i < |obj.phdrs| && !LoadNever(obj.phdrs[i]) ==>
         !Reaches(v, Targets(tiles, obj.phdrs[i]), obj.phdrs[i], npa)
  }

  lemma ProgramUnchanged(obj: Object, v: View, tiles: seq<Coord>, mem: Memory)
    requires tiles != []
    ensures OnlyProgram(obj, v, tiles, mem, mem)
  {
  }

  lemma ProgramAfterSegment(obj: Object, v: View, tiles: seq<Coord>, i: nat, m0: Memory, m1: Memory, m2: Memory)
    requires tiles != [] && i < |obj.phdrs| && !LoadNever(obj.phdrs[i]) && OnlyProgram(obj, v, tiles, m0, m1)
    requires OnlySegment(v, Targets(tiles, obj.phdrs[i]), obj.phdrs[i], m1, m2)
    ensures OnlyProgram(obj, v, tiles, m0, m2)
  {
    hide Reaches, Get, Targets, LoadNever;
  }

  lemma ProgramAfterIcaches(obj: Object, v: View, tiles: seq<Coord>, m0: Memory, m1: Memory, m2: Memory)
    requires tiles != [] && OnlyProgram(obj, v, tiles, m0, m1) && OnlyIcaches(tiles, m1, m2)
    ensures OnlyProgram(obj, v, tiles, m0, m2)
  {
    hide Reaches, Get, Targets, LoadNever;
  }

  // There is one last executable segment.
  lemma LastIsUnique(obj: Object, j: int, k: int)
    requires LastExecutable(obj, |obj.phdrs|, j) && LastExecutable(obj, |obj.phdrs|, k)
    ensures j == k
  {
  }

  lemma OnlyTile(v: View, tiles: seq<Coord>, p: Phdr, m0: Memory, m1: Memory)
    requires tiles != [] && LoadOnce(p) && OnlyRange(MapOf(On(v, tiles[0])), m0, m1, p.paddr, p.memsz)
    ensures OnlySegment(v, Targets(tiles, p), p, m0, m1)
  {
    hide MapOf, On, InRange, Get;
    assert tiles[0] in tiles[..1];
  }

  lemma FirstTileLoads(v: View, tiles: seq<Coord>, p: Phdr, hostAddr: nat)
    requires tiles != [] && p.filesz <= p.memsz
    ensures TilesLoad(v, [tiles[0]], p, hostAddr) <==> TileLoads(On(v, tiles[0]), p, hostAddr)
  {
    hide TileLoads, On;
  }

  lemma CodeLoadsExactly(obj: Object, icache: int)
    requires LastExecutable(obj, |obj.phdrs|, icache)
    ensures (exists k :: LastExecutable(obj, |obj.phdrs|, k) && CodeOf(obj, k)) <==> CodeOf(obj, icache)
  {
    hide LastExecutable, CodeOf;
    if k :| LastExecutable(obj, |obj.phdrs|, k) && CodeOf(obj, k) { LastIsUnique(obj, k, icache); }
  }

  // ---------------------------------------------------------------- in terms of the file

  // An object is large enough for a segment if its header table and the segment's
  // bytes lie in it; the segment is those bytes, where they are in host memory.
  lemma GetSegmentExactly(obj: Object, i: nat)
    requires i < |obj.phdrs|
    ensures var p := obj.phdrs[i];
      && (GetSegment(obj, i).Found? <==>
            obj.phoff + 32 * |obj.phdrs| <= |obj.bytes| && p.offset + p.filesz <= |obj.bytes|)
      && (GetSegment(obj, i).Found? ==> var s := GetSegment(obj, i).segment;
            && s.phdr == p && s.hostAddr == obj.addr + p.offset && |s.data| == p.filesz
            && forall k :: 0 <= k < p.filesz ==> s.data[k] == obj.bytes[p.offset + k])
  {
  }

  // What a byte of a segment in memory should be: a byte of the file, or zero.
  ghost function FileByte(obj: Object, p: Phdr, k: nat): int {
    if k >= p.filesz then 0 else if p.offset + k < |obj.bytes| then obj.bytes[p.offset + k] else -1
  }

  // A segment is in memory: for the first tile if it lies in DRAM, for every tile if
  // it lies in data memory.
  ghost predicate InMemory(obj: Object, v: View, tiles: seq<Coord>, p: Phdr, mem: Memory) {
    forall i: nat, k: nat :: i < |tiles| && k < p.memsz && (p.paddr < 0x8000_0000 || i == 0) ==>
      ByteInMemory(v, tiles[i], p.paddr + k, FileByte(obj, p, k), mem)
  }

  ghost predicate ByteInMemory(v: View, t: Coord, eva: nat, b: int, mem: Memory) {
    MapOf(On(v, t))(eva).Ok? && Get(mem, MapOf(On(v, t))(eva).npa) == b
  }

  // The icaches hold the first bytes of a segment, at most 4096.
  ghost predicate CodeInIcaches(obj: Object, tiles: seq<Coord>, p: Phdr, mem: Memory) {
    forall t, k: nat :: t in tiles && k < p.filesz && k < 4096 ==> CodeByte(obj, t, p, k, mem)
  }

  ghost predicate CodeByte(obj: Object, t: Coord, p: Phdr, k: nat, mem: Memory) {
    p.offset + k < |obj.bytes| && Get(mem, Npa(t.x, t.y, 0x100_0000 + k)) == obj.bytes[p.offset + k]
  }

  lemma PlacedIsInMemory(obj: Object, v: View, tiles: seq<Coord>, i: nat, mem: Memory)
    requires tiles != [] && i < |obj.phdrs| && Loadable(obj.phdrs[i]) && InPlace(obj, v, tiles, i, mem)
    ensures InMemory(obj, v, tiles, obj.phdrs[i], mem)
  {
    hide MapOf, On, Get;
    GetSegmentExactly(obj, i);
    var p := obj.phdrs[i];
    var image := Image(p, GetSegment(obj, i).segment.data);
    forall j: nat, k: nat | j < |tiles| && k < p.memsz && (p.paddr < 0x8000_0000 || j == 0)
      ensures ByteInMemory(v, tiles[j], p.paddr + k, FileByte(obj, p, k), mem)
    {
      assert tiles[j] in Targets(tiles, p) by { if j == 0 { assert tiles[..1][0] == tiles[0]; } }
      assert image[p.paddr + k - p.paddr] == FileByte(obj, p, k);
    }
  }

  lemma AllInMemory(obj: Object, v: View, tiles: seq<Coord>, mem: Memory)
    requires tiles != [] && WellFormed(obj) && FirstInPlace(obj, v, tiles, |obj.phdrs|, mem)
    ensures forall p :: p in obj.phdrs && p.ptype == 1 ==> InMemory(obj, v, tiles, p, mem)
  {
    hide InMemory, InPlace, Loadable;
    forall p | p in obj.phdrs && p.ptype == 1 ensures InMemory(obj, v, tiles, p, mem) {
      var i :| 0 <= i < |obj.phdrs| && obj.phdrs[i] == p;
      PlacedIsInMemory(obj, v, tiles, i, mem);
    }
  }

  lemma CodeIsInIcaches(obj: Object, tiles: seq<Coord>, i: nat, mem: Memory)
    requires i < |obj.phdrs| && GetSegment(obj, i).Found? && IcachesHold(tiles, GetSegment(obj, i).segment.data, mem)
    ensures CodeInIcaches(obj, tiles, obj.phdrs[i], mem)
  {
    hide Get;
    GetSegmentExactly(obj, i);
    var p, data := obj.phdrs[i], GetSegment(obj, i).segment.data;
    forall t, k: nat | t in tiles && k < p.filesz && k < 4096 ensures CodeByte(obj, t, p, k, mem)
    {
      assert Plus(IcacheOf(t), k) == Npa(t.x, t.y, 0x100_0000 + k);
      assert data[..IcacheBytes(data)][k] == obj.bytes[p.offset + k];
    }
  }

  /** Load every segment of a program, then the icaches. On success each segment
      to load is in place, and the last executable one is in the icaches. Whatever
      the outcome, nothing else changes. */
  method LoadSegments(fabric: Fabric, obj: Object, v: View, tiles: seq<Coord>) returns (r: Outcome, icache: int)
    requires tiles != [] && GoodTiles(v, tiles) && WellFormed(obj)
    modifies fabric`mem
    ensures r == Loaded ==> forall p :: p in obj.phdrs && p.ptype == 1 ==> InMemory(obj, v, tiles, p, fabric.mem)
    ensures r == Loaded ==> 0 <= icache < |obj.phdrs| && CodeInIcaches(obj, tiles, obj.phdrs[icache], fabric.mem)
    ensures r == Loaded || r == NoProgram ==> LastExecutable(obj, |obj.phdrs|, icache)
    ensures r == NoProgram ==> icache == -1
    ensures r == Loaded ==> ProgramLoads(obj, v, tiles)
    ensures fabric.reliable && ProgramLoads(obj, v, tiles) ==> r == Loaded
    ensures OnlyProgram(obj, v, tiles, old(fabric.mem), fabric.mem)
  {
    hide MapOf, Good, GoodTiles, SegmentWritten, FirstInPlace, Inside, IcachesHold, OnlyIcaches, On, FlatWritten;
    hide TilesLoad, TileLoads, OnlySegment, OnlyProgram, OnlyRange, CodeLoads, InMemory, CodeInIcaches, GetSegment;
    ProgramUnchanged(obj, v, tiles, fabric.mem);
    icache := -1;
    NothingInPlace(obj, v, tiles, fabric.mem);
    for i := 0 to |obj.phdrs|
      invariant FirstInPlace(obj, v, tiles, i, fabric.mem)
      invariant LastExecutable(obj, i, icache)
      invariant icache >= 0 ==> GetSegment(obj, icache).Found?
      invariant forall j :: 0 <= j < i ==> SegmentLoads(obj, v, tiles, j)
      invariant OnlyProgram(obj, v, tiles, old(fabric.mem), fabric.mem)
    {
      var f := GetSegment(obj, i);
      GetSegmentExactly(obj, i);
      assert ProgramLoads(obj, v, tiles) ==> SegmentLoads(obj, v, tiles, i);
      if f.TooShort? {
        return BadObject, icache;
      }
      var p := f.segment.phdr;
      if LoadNever(p) {
        SkipSegment(obj, v, tiles, i, fabric.mem);
        continue;
      }
      ghost var before := fabric.mem;
      if LoadOnce(p) {
        FirstTilesAreGood(v, tiles, 1);
        TileIsGood(v, tiles);
        FirstTileLoads(v, tiles, p, f.segment.hostAddr);
        r := LoadTileSegment(fabric, On(v, tiles[0]), f.segment);
        OnlyTile(v, tiles, p, before, fabric.mem);
        ProgramAfterSegment(obj, v, tiles, i, old(fabric.mem), before, fabric.mem);
        if r != Loaded {
          return;
        }
        OneTile(v, tiles, p, Image(p, f.segment.data), before, fabric.mem);
      } else {
        r := LoadTilesSegment(fabric, v, f.segment, tiles);
        ProgramAfterSegment(obj, v, tiles, i, old(fabric.mem), before, fabric.mem);
        if r != Loaded {
          return;
        }
      }
      SegmentLoaded(obj, v, tiles, i, before, fabric.mem);
      if p.ptype == PT_LOAD && p.executable {
        icache := i;
      }
    }
    CodeLoadsExactly(obj, icache);
    if icache == -1 {
      return NoProgram, icache;
    }
    var g := GetSegment(obj, icache);
    GetSegmentExactly(obj, icache);
    if g.TooShort? {
      return BadObject, icache;
    }
    ghost var before := fabric.mem;
    r := LoadTilesIcache(fabric, g.segment.data, g.segment.hostAddr, tiles);
    ProgramAfterIcaches(obj, v, tiles, old(fabric.mem), before, fabric.mem);
    if r == Loaded {
      SegmentsKeptByIcache(obj, v, tiles, |obj.phdrs|, before, fabric.mem);
      AllInMemory(obj, v, tiles, fabric.mem);
      CodeIsInIcaches(obj, tiles, icache, fabric.mem);
    }
  }

  // The last of the first k segments that is executable, or -1.
  ghost predicate LastExecutable(obj: Object, k: nat, icache: int) {
    && -1 <= icache < k
    && (icache >= 0 && icache < |obj.phdrs| ==> !LoadNever(obj.phdrs[icache]) && obj.phdrs[icache].executable)
    && forall i :: icache < i < k && 0 <= i < |obj.phdrs| && !LoadNever(obj.phdrs[i]) ==> !obj.phdrs[i].executable
  }

  lemma NothingInPlace(obj: Object, v: View, tiles: seq<Coord>, mem: Memory)
    requires tiles != []
    ensures FirstInPlace(obj, v, tiles, 0, mem)
  {
  }

  lemma SkipSegment(obj: Object, v: View, tiles: seq<Coord>, k: nat, mem: Memory)
    requires tiles != [] && k < |obj.phdrs| && LoadNever(obj.phdrs[k]) && FirstInPlace(obj, v, tiles, k, mem)
    ensures FirstInPlace(obj, v, tiles, k + 1, mem)
  {
  }

  lemma TileIsGood(v: View, tiles: seq<Coord>)
    requires tiles != [] && GoodTiles(v, tiles)
    ensures Good(On(v, tiles[0]))
  {
  }

  lemma OneTile(v: View, tiles: seq<Coord>, p: Phdr, image: seq<Byte>, m0: Memory, m1: Memory)
    requires tiles != [] && GoodTiles(v, tiles) && Loadable(p) && LoadOnce(p) && |image| == p.memsz
    requires FlatWritten(MapOf(On(v, tiles[0])), m0, m1, p.paddr, image)
    ensures SegmentWritten(v, Targets(tiles, p), p, image, m0, m1) && Inside(p)
  {
    hide MapOf, FlatWritten, SegmentWritten, Good;
    assert tiles[..1] == [] + [tiles[0]];
    NoTiles(v, p, image, m0);
    TileStep(v, [], tiles[0], p, image, m0, m0, m1);
    TileIsGood(v, tiles);
    WrittenIsInside(On(v, tiles[0]), p, m0, m1, image);
  }
}
