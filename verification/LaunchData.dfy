// What a launch copies to the device: the kernel's arguments, and one control
// word for the barrier of every tile of the group.
module LaunchData {
  import opened Bits
  import opened Coordinates
  import opened EvaMap
  import opened RemoteRead
  import opened EvaCopy
  import Barrier

  /** The bytes of 32-bit words as they lie in memory. */
  function Bytes(words: seq<nat>): seq<Byte> {
    seq(4 * |words|, i requires 0 <= i < 4 * |words| => ByteOf(words[i / 4], i % 4))
  }

  function ControlWord(r: int, c: Coord, dim: Coord): nat {
    Barrier.CsrVal(r, Barrier.Tile(c.x, c.y), Barrier.Shape(dim.x, dim.y)) as nat
  }

  /** The number of a tile of the group, row by row. */
  function RowMajor(c: Coord, dim: Coord): nat { ToIndex(Coord(c.y, c.x), Coord(dim.y, dim.x)) }

  function FromRowMajor(k: nat, dim: Coord): Coord
    requires dim.x > 0
  {
    var yx := FromIndex(k, Coord(dim.y, dim.x));
    Coord(yx.y, yx.x)
  }

  /** The lock word, then every tile's control word. */
  function BarrierTable(r: int, dim: Coord): seq<nat>
    requires dim.x > 0
  {
    [0] + seq(dim.x * dim.y, k requires 0 <= k < dim.x * dim.y => ControlWord(r, FromRowMajor(k, dim), dim))
  }

  lemma RowMajorRoundTrip(c: Coord, dim: Coord)
    requires c.x < dim.x && c.y < dim.y
    ensures RowMajor(c, dim) < dim.x * dim.y && FromRowMajor(RowMajor(c, dim), dim) == c
  {
    IndexRoundTrip(Coord(c.y, c.x), Coord(dim.y, dim.x));
  }

  lemma FromRowMajorIsInside(k: nat, dim: Coord)
    requires dim.x > 0 && k < dim.x * dim.y
    ensures InRect(FromRowMajor(k, dim), Coord(0, 0), dim) && RowMajor(FromRowMajor(k, dim), dim) == k
  {
    CoordRoundTrip(k, Coord(dim.y, dim.x));
  }

  // Each tile finds its control word at its row-major number.
  lemma TileFindsItsWord(r: int, c: Coord, dim: Coord)
    requires c.x < dim.x && c.y < dim.y
    ensures c.y * dim.x + c.x < dim.x * dim.y
    ensures BarrierTable(r, dim)[0] == 0
    ensures BarrierTable(r, dim)[1 + c.y * dim.x + c.x]
      == Barrier.CsrVal(r, Barrier.Tile(c.x, c.y), Barrier.Shape(dim.x, dim.y)) as nat
  {
    assert ControlWord(r, c, dim) == Barrier.CsrVal(r, Barrier.Tile(c.x, c.y), Barrier.Shape(dim.x, dim.y)) as nat;
    hide ControlWord;
    RowMajorRoundTrip(c, dim);
  }

  // The words of the tiles that a scan has passed are in place.
  ghost predicate Tabled(r: int, dim: Coord, words: seq<nat>, now: Coord)
    requires dim.x > 0
  {
    && |words| == 1 + dim.x * dim.y && words[0] == 0
    && forall k :: 0 <= k < dim.x * dim.y && Passed(FromRowMajor(k, dim), now, Coord(0, 0), dim) ==>
         words[1 + k] == ControlWord(r, FromRowMajor(k, dim), dim)
  }

  lemma NothingTabled(r: int, dim: Coord, words: seq<nat>)
    requires dim.x > 0 && |words| == 1 + dim.x * dim.y && words[0] == 0
    ensures Tabled(r, dim, words, Coord(0, 0))
  {
  }

  lemma TabledStep(r: int, dim: Coord, words: seq<nat>, now: Coord)
    requires Scanning(now, Coord(0, 0), dim) && !Stop(now, Coord(0, 0), dim) && Tabled(r, dim, words, now)
    ensures 1 + RowMajor(now, dim) < |words| && Scanning(Next(now, Coord(0, 0), dim), Coord(0, 0), dim)
    ensures Tabled(r, dim, words[1 + RowMajor(now, dim) := ControlWord(r, now, dim)], Next(now, Coord(0, 0), dim))
  {
    hide ControlWord;
    RowMajorRoundTrip(now, dim);
    ScanStep(now, Coord(0, 0), dim);
    var n, words' := RowMajor(now, dim), words[1 + RowMajor(now, dim) := ControlWord(r, now, dim)];
    hide RowMajor, FromRowMajor, Next;
    forall k | 0 <= k < dim.x * dim.y && Passed(FromRowMajor(k, dim), Next(now, Coord(0, 0), dim), Coord(0, 0), dim)
      ensures words'[1 + k] == ControlWord(r, FromRowMajor(k, dim), dim)
    {
      FromRowMajorIsInside(k, dim);
    }
  }

  lemma AllTabled(r: int, dim: Coord, words: seq<nat>, now: Coord)
    requires Scanning(now, Coord(0, 0), dim) && Stop(now, Coord(0, 0), dim) && Tabled(r, dim, words, now)
    ensures words == BarrierTable(r, dim)
  {
    hide ControlWord, FromRowMajor;
    ScanDone(now, Coord(0, 0), dim);
    forall k | 0 <= k < dim.x * dim.y ensures words[1 + k] == ControlWord(r, FromRowMajor(k, dim), dim) {
      FromRowMajorIsInside(k, dim);
    }
  }

  // A kernel that loads word k of a copied range gets word k of the host's array.
  lemma WordArrives(tr: Map, lo: nat, hi: nat, mem: Memory, eva: nat, words: seq<nat>, k: nat)
    requires Lawful(tr, lo, hi) && lo <= eva && eva + 4 * |words| <= hi && eva % 4 == 0
    requires FlatHolds(tr, mem, eva, Bytes(words)) && k < |words| && words[k] < TWO32
    ensures tr(eva + 4 * k).Ok? && Word(mem, tr(eva + 4 * k).npa) == words[k]
  {
    hide Pack, ByteOf, Get, Plus;
    var e := eva + 4 * k;
    assert tr(e).Ok? && tr(e).size >= 4;
    forall j: nat | j < 4 ensures Get(mem, Plus(tr(e).npa, j)) == ByteOf(words[k], j) {
      assert tr(e + j).npa == Plus(tr(e).npa, j);
      assert Bytes(words)[4 * k + j] == ByteOf(words[k], j);
    }
    PlusZero(tr(e).npa);
    WordOfBytes(words[k]);
  }

  lemma PlusZero(npa: Npa)
    ensures npa.epa < TWO32 ==> Plus(npa, 0) == npa
  {
  }

  lemma WordOfBytes(w: nat)
    requires w < TWO32
    ensures Pack(ByteOf(w, 0), ByteOf(w, 1), ByteOf(w, 2), ByteOf(w, 3)) == w
  {
    assert w / 0x100 == 0x100 * (w / 0x1_0000) + w / 0x100 % 0x100;
    assert w / 0x1_0000 == 0x100 * (w / 0x100_0000) + w / 0x1_0000 % 0x100;
  }
}
