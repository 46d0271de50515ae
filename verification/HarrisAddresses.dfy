// How a tile of the corner detector addresses its neighbours' buffers.
module HarrisAddresses {
  import opened Bits
  import opened Coordinates
  import opened EvaMap
  import opened HarrisKernel
  import opened TileAddresses

  // Column and row of a tile on the network, for a group that fills pod 0, 0.
  function TileX(id: Tile): nat { id % 8 + 8 }

  function TileY(id: Tile): nat { id / 8 + 4 }

  /** The address a tile computes for local address base of tile id. */
  function RemoteAddress(id: Tile, base: nat): nat { Shl(TileX(id), 16) + Shl(TileY(id), 23) + 0x4000_0000 + base }

  // It leads to that tile and that address, whoever uses it: an index into a
  // neighbour's buffer reads the neighbour's own word. The group fills eight columns
  // from column 8 and four rows from row 4.
  lemma RemoteReadsNeighbour(cfg: Config, coreOrigin: Coord, mapOrigin: Coord, src: Coord, id: Tile, base: nat)
    requires Sane(cfg) && base < DMEM_SIZE
    ensures EvaToNpa(cfg, coreOrigin, mapOrigin, src, RemoteAddress(id, base))
      == Ok(Npa(8 + id % 8, 4 + id / 8, base), 0x1000 - base)
  {
    hide Shr, Low, Shl, Pow2, EvaToNpa;
    Powers();
    ShiftIsProduct(TileX(id), 16, 0x1_0000);
    ShiftIsProduct(TileY(id), 23, 0x80_0000);
    GlobalLeadsToTile(cfg, coreOrigin, mapOrigin, src, base, TileX(id), TileY(id));
  }
}
