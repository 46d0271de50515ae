// The tiles' side: every tile fills its own buffers, one phase after another, and
// reads the rows around its own from the buffers of its neighbours.
module HarrisKernel {
  import opened HarrisImages

  const TILES: nat := 32
  const CHUNK: nat := 128

  type Tile = t: nat | t < TILES

  // ---------------------------------------------------------------- layout

  // Twice the first image row of a tile.
  function Cinit(id: Tile): nat {
    if id / 16 < 1 then
      (if id % 8 < 4 then ((id / 8) * 4 + id % 8) * 16 else ((id / 8) * 4 + (id % 8 - 4)) * 16 + 4)
    else
      (if id % 8 < 4 then ((id / 8 - 2) * 4 + id % 8) * 16 + 8 else ((id / 8 - 2) * 4 + (id % 8 - 4)) * 16 + 8 + 4)
  }

  function Up(id: Tile): Tile {
    if id == 0 then 0
    else if id == 8 then 23
    else if id < 4 || 8 < id < 12 then id + 19
    else if id % 8 > 3 then id - 4
    else id - 12
  }

  function Down(id: Tile): Tile {
    if id == 31 then 31
    else if id == 23 then 8
    else if id > 27 || 19 < id < 23 then id - 19
    else if id % 8 < 4 then id + 4
    else id + 12
  }

  // First row, and first pixel, of a tile.
  function Row(id: Tile): nat { Cinit(id) / 2 }

  function Base(id: Tile): nat { 64 * Row(id) }

  // The pair of image rows a tile owns, piece by piece.
  function Chunk(id: Tile): nat {
    if id < 4 then 4 * id else if id < 8 then 4 * (id - 4) + 1
    else if id < 12 then 4 * (id - 4) else if id < 16 then 4 * (id - 8) + 1
    else if id < 20 then 4 * (id - 16) + 2 else if id < 24 then 4 * (id - 20) + 3
    else if id < 28 then 4 * (id - 20) + 2 else 4 * (id - 24) + 3
  }

  // Row and column of the mesh.
  lemma Mesh(id: Tile)
    ensures id / 8 == if id < 8 then 0 else if id < 16 then 1 else if id < 24 then 2 else 3
    ensures id % 8 == if id < 8 then id else if id < 16 then id - 8 else if id < 24 then id - 16 else id - 24
    ensures id / 16 == if id < 16 then 0 else 1
  {
  }

  lemma BaseIs(id: Tile)
    ensures Base(id) == CHUNK * Chunk(id)
  {
    Mesh(id);
  }

  // Tiles own different pairs of rows.
  lemma RowsAreApart(id: Tile, id': Tile)
    ensures 0 <= Base(id) <= PIXELS - CHUNK && Base(id) % CHUNK == 0
    ensures id < id' ==> Base(id) + CHUNK <= Base(id') || Base(id') + CHUNK <= Base(id)
  {
    hide Base;
    BaseIs(id);
    BaseIs(id');
  }

  // Every pixel is owned by a tile.
  lemma EveryPixelIsOwned(p: int) returns (id: Tile)
    requires 0 <= p < PIXELS
    ensures Base(id) <= p < Base(id) + CHUNK
  {
    hide Base;
    var c := p / CHUNK;
    var s := c / 4;
    var t := if s < 4 then s else s + 4;
    id := if c % 4 == 0 then t else if c % 4 == 1 then t + 4 else if c % 4 == 2 then t + 16 else t + 20;
    BaseIs(id);
  }

  // The tiles above and below own the rows above and below.
  lemma NeighboursAreAdjacent(id: Tile)
    ensures if id == 0 then Base(id) == 0 else Base(Up(id)) == Base(id) - CHUNK
    ensures if id == 31 then Base(id) == PIXELS - CHUNK else Base(Down(id)) == Base(id) + CHUNK
  {
    hide Base;
    Mesh(id);
    BaseIs(id);
    BaseIs(Up(id));
    BaseIs(Down(id));
  }

  // ---------------------------------------------------------------- buffers

  // A buffer exists once in every tile, at the same local address: the first
  // index is the tile.
  ghost predicate IsBuffer(buf: array2<int>) { buf.Length0 == TILES && buf.Length1 == CHUNK }

  // The first n words of a tile's buffer hold its pixels of an image, m away from
  // the edges.
  ghost predicate PartShows(buf: array2<int>, id: Tile, f: Image, m: nat, n: nat)
    requires IsBuffer(buf)
    reads buf
  {
    forall k :: 0 <= k < n && k < CHUNK && Inner(Base(id) + k, m) ==> buf[id, k] == f(Base(id) + k)
  }

  ghost predicate Shows(buf: array2<int>, f: Image, m: nat)
    requires IsBuffer(buf)
    reads buf
  {
    forall id: Tile :: PartShows(buf, id, f, m, CHUNK)
  }

  // Pixel x, y of a tile's two rows.
  function Pixel(id: Tile, x: int, y: int): int { Base(id) + x + 64 * y }

  // Reading the pixel around x, y: the row above the first row and the row below
  // the last one are another tile's.
  method ReadAround(buf: array2<int>, id: Tile, x: int, y: int, ghost f: Image, ghost m: nat)
    returns (tl: int, t: int, tr: int, l: int, c: int, r: int, bl: int, b: int, br: int)
    requires IsBuffer(buf) && Shows(buf, f, m) && 0 <= x < 64 && 0 <= y < 2 && Inner(Pixel(id, x, y), m + 1)
    ensures var p := Pixel(id, x, y);
      && tl == f(p - 65) && t == f(p - 64) && tr == f(p - 63) && l == f(p - 1) && c == f(p) && r == f(p + 1)
      && bl == f(p + 63) && b == f(p + 64) && br == f(p + 65)
  {
    hide Base, Up, Down, Inner;
    ghost var p := Pixel(id, x, y);
    Around(p, m);
    NeighboursAreAdjacent(id);
    InnerColumn(id, x, y, m);
    var i := x + y * 64;
    var topLeft, top, topRight := x - 1 + (y - 1) * 64, x + (y - 1) * 64, x + 1 + (y - 1) * 64;
    var botLeft, bot, botRight := x - 1 + (y + 1) * 64, x + (y + 1) * 64, x + 1 + (y + 1) * 64;
    assert PartShows(buf, id, f, m, CHUNK) && PartShows(buf, Up(id), f, m, CHUNK) && PartShows(buf, Down(id), f, m, CHUNK);
    if y == 0 {
      topLeft, top, topRight := x - 1 + (2 - 1) * 64, x + (2 - 1) * 64, x + 1 + (2 - 1) * 64;
      tl, t, tr := buf[Up(id), topLeft], buf[Up(id), top], buf[Up(id), topRight];
      bl, b, br := buf[id, botLeft], buf[id, bot], buf[id, botRight];
    } else {
      botLeft, bot, botRight := x - 1, x, x + 1;
      tl, t, tr := buf[id, topLeft], buf[id, top], buf[id, topRight];
      bl, b, br := buf[Down(id), botLeft], buf[Down(id), bot], buf[Down(id), botRight];
    }
    l, c, r := buf[id, i - 1], buf[id, i], buf[id, i + 1];
  }

  lemma PixelRow(id: Tile, x: int, y: int)
    requires 0 <= x < 64 && 0 <= y < 2
    ensures Pixel(id, x, y) % 64 == x && Pixel(id, x, y) / 64 == Row(id) + y && 0 <= Pixel(id, x, y) < PIXELS
  {
    hide Row;
    hide Cinit;
    RowsAreApart(id, id);
  }

  // An inner pixel is not in the first or last column, and not in the first row of
  // the first tile or the last row of the last one.
  lemma InnerColumn(id: Tile, x: int, y: int, m: nat)
    requires 0 <= x < 64 && 0 <= y < 2
    ensures Inner(Pixel(id, x, y), m) <==> m <= x < 64 - m && m <= Row(id) + y < 64 - m
    ensures Inner(Pixel(id, x, y), m + 1) ==> 1 <= x < 63 && (y == 0 ==> id != 0) && (y == 1 ==> id != 31)
  {
    hide Row, Base, Pixel;
    PixelRow(id, x, y);
    FirstAndLastRow();
  }

  lemma FirstAndLastRow()
    ensures Row(0) == 0 && Row(31) == 62
  {
  }

  // ---------------------------------------------------------------- grayscale

  // Only one tile's part of a buffer changed.
  twostate predicate OnlyPart(buf: array2<int>, id: Tile)
    requires IsBuffer(buf)
    reads buf
  {
    forall j: Tile, k :: j != id && 0 <= k < CHUNK ==> buf[j, k] == old(buf[j, k])
  }

  // What the other tiles' parts show, they still show.
  twostate predicate OthersKept(buf: array2<int>, id: Tile, f: Image, m: nat)
    requires IsBuffer(buf)
    reads buf
  {
    forall j: Tile :: j != id && old(PartShows(buf, j, f, m, CHUNK)) ==> PartShows(buf, j, f, m, CHUNK)
  }

  /** Four gray pixels at a time. */
  method GrayTile(id: Tile, a: seq<int>, gray: array2<int>, initIndex: nat)
    requires IsPhoto(a) && IsBuffer(gray) && initIndex == Base(id)
    modifies gray
    ensures PartShows(gray, id, Gray(a), 0, CHUNK) && OnlyPart(gray, id) && OthersKept(gray, id, Gray(a), 0)
  {
    hide Base, Gray, Shade, Short, IsPhoto, Inner;
    RowsAreApart(id, id);
    var x := 0;
    while x < CHUNK
      invariant 0 <= x <= CHUNK && x % 4 == 0
      invariant PartShows(gray, id, Gray(a), 0, x) && OnlyPart(gray, id)
    {
      var i := initIndex + x;
      FourPixels(a, i);
      gray[id, x] := (77 * Short(a[i * 3]) + 150 * Short(a[i * 3 + 1]) + 29 * Short(a[i * 3 + 2])) / 256;
      gray[id, x + 1] := (77 * Short(a[i * 3 + 3]) + 150 * Short(a[i * 3 + 4]) + 29 * Short(a[i * 3 + 5])) / 256;
      gray[id, x + 2] := (77 * Short(a[i * 3 + 6]) + 150 * Short(a[i * 3 + 7]) + 29 * Short(a[i * 3 + 8])) / 256;
      gray[id, x + 3] := (77 * Short(a[i * 3 + 9]) + 150 * Short(a[i * 3 + 10]) + 29 * Short(a[i * 3 + 11])) / 256;
      x := x + 4;
    }
  }

  lemma FourPixels(a: seq<int>, p: int)
    requires IsPhoto(a) && 0 <= p && p + 4 <= PIXELS
    ensures |a| == 3 * PIXELS
    ensures Gray(a)(p) == (77 * Short(a[p * 3]) + 150 * Short(a[p * 3 + 1]) + 29 * Short(a[p * 3 + 2])) / 256
    ensures Gray(a)(p + 1) == (77 * Short(a[p * 3 + 3]) + 150 * Short(a[p * 3 + 4]) + 29 * Short(a[p * 3 + 5])) / 256
    ensures Gray(a)(p + 2) == (77 * Short(a[p * 3 + 6]) + 150 * Short(a[p * 3 + 7]) + 29 * Short(a[p * 3 + 8])) / 256
    ensures Gray(a)(p + 3) == (77 * Short(a[p * 3 + 9]) + 150 * Short(a[p * 3 + 10]) + 29 * Short(a[p * 3 + 11])) / 256
  {
    hide Gray, Short;
    OnePixel(a, p);
    OnePixel(a, p + 1);
    OnePixel(a, p + 2);
    OnePixel(a, p + 3);
  }

  lemma OnePixel(a: seq<int>, p: int)
    requires IsPhoto(a) && 0 <= p < PIXELS
    ensures |a| == 3 * PIXELS
    ensures Gray(a)(p) == (77 * Short(a[p * 3]) + 150 * Short(a[p * 3 + 1]) + 29 * Short(a[p * 3 + 2])) / 256
  {
    hide Short;
    ShortFits(a[p * 3]);
    ShortFits(a[p * 3 + 1]);
    ShortFits(a[p * 3 + 2]);
  }

  // ---------------------------------------------------------------- gradients

  /** The products of the clamped gradients at one pixel. */
  method SobelPixel(gray: array2<int>, id: Tile, x: int, y: int, ghost g: Image) returns (xx: int, yy: int, xy: int)
    requires IsBuffer(gray) && Shows(gray, g, 0) && 0 <= x < 64 && 0 <= y < 2 && Inner(Pixel(id, x, y), 1)
    ensures xx == Lxx(g)(Pixel(id, x, y)) && yy == Lyy(g)(Pixel(id, x, y)) && xy == Lxy(g)(Pixel(id, x, y))
  {
    hide Shows, Inner, Pixel;
    var topLeft, top, topRight, left, middle, right, botLeft, bot, botRight := ReadAround(gray, id, x, y, g, 0);
    var gradX := topRight - topLeft - 2 * left + 2 * right - botLeft + botRight;
    if gradX < -180 { gradX := -180; } else if gradX > 180 { gradX := 180; }
    var gradY := topLeft + 2 * top + topRight - botLeft - 2 * bot - botRight;
    if gradY < -180 { gradY := -180; } else if gradY > 180 { gradY := 180; }
    xx, yy, xy := gradX * gradX / 64, gradY * gradY / 64, gradX * gradY / 64;
  }

  // The next word of a part.
  lemma PartGrows(id: Tile, x: int, y: int, m: nat, initY: nat)
    requires 0 <= x < 64 && 0 <= y < 2 && initY == Cinit(id) / 2
    ensures Base(id) + (x + y * 64) == Pixel(id, x, y) && initY <= 62
    ensures Inner(Pixel(id, x, y), m) <==> m <= x < 64 - m && m <= initY + y < 64 - m
  {
    hide Cinit;
    InnerColumn(id, x, y, m);
    RowsAreApart(id, id);
  }

  // The m columns at either side are not inner pixels.
  lemma SkipLeft(buf: array2<int>, id: Tile, f: Image, m: nat, y: int)
    requires IsBuffer(buf) && 0 <= y < 2 && m <= 32 && PartShows(buf, id, f, m, 64 * y)
    ensures PartShows(buf, id, f, m, m + 64 * y)
  {
    hide Base, Inner;
    forall k | 0 <= k < m + 64 * y && Inner(Base(id) + k, m) ensures buf[id, k] == f(Base(id) + k) {
      if k >= 64 * y { NotInner(id, k - 64 * y, y, m); }
    }
  }

  lemma SkipRight(buf: array2<int>, id: Tile, f: Image, m: nat, y: int)
    requires IsBuffer(buf) && 0 <= y < 2 && m <= 32 && PartShows(buf, id, f, m, 64 - m + 64 * y)
    ensures PartShows(buf, id, f, m, 64 * (y + 1))
  {
    hide Base, Inner;
    forall k | 0 <= k < 64 * (y + 1) && Inner(Base(id) + k, m) ensures buf[id, k] == f(Base(id) + k) {
      if k >= 64 - m + 64 * y { NotInner(id, k - 64 * y, y, m); }
    }
  }

  lemma NotInner(id: Tile, x: int, y: int, m: nat)
    requires 0 <= x < 64 && 0 <= y < 2 && !(m <= x < 64 - m)
    ensures !Inner(Base(id) + (x + 64 * y), m)
  {
    hide Inner, Base;
    InnerColumn(id, x, y, m);
  }

  // The three product buffers of a tile.
  datatype Products = Products(xx: array2<int>, yy: array2<int>, xy: array2<int>)

  ghost predicate AreBuffers(l: Products) {
    IsBuffer(l.xx) && IsBuffer(l.yy) && IsBuffer(l.xy) && l.xx != l.yy && l.xx != l.xy && l.yy != l.xy
  }

  ghost predicate ProductsShow(l: Products, id: Tile, g: Image, n: nat)
    requires AreBuffers(l)
    reads l.xx, l.yy, l.xy
  {
    PartShows(l.xx, id, Lxx(g), 1, n) && PartShows(l.yy, id, Lyy(g), 1, n) && PartShows(l.xy, id, Lxy(g), 1, n)
  }

  twostate predicate OnlyParts(l: Products, id: Tile)
    requires AreBuffers(l)
    reads l.xx, l.yy, l.xy
  {
    OnlyPart(l.xx, id) && OnlyPart(l.yy, id) && OnlyPart(l.xy, id)
  }

  // Store the next word of a tile's part.
  method Put(buf: array2<int>, id: Tile, i: nat, v: int, ghost f: Image, ghost m: nat)
    requires IsBuffer(buf) && i < CHUNK && PartShows(buf, id, f, m, i) && v == f(Base(id) + i)
    modifies buf
    ensures PartShows(buf, id, f, m, i + 1) && OnlyPart(buf, id)
  {
    hide Base, Inner;
    buf[id, i] := v;
  }

  lemma PartSkips(buf: array2<int>, id: Tile, i: nat, f: Image, m: nat)
    requires IsBuffer(buf) && i < CHUNK && PartShows(buf, id, f, m, i) && !Inner(Base(id) + i, m)
    ensures PartShows(buf, id, f, m, i + 1)
  {
  }

  method SobelStep(id: Tile, gray: array2<int>, l: Products, x: int, y: int, initY: nat, ghost g: Image)
    requires IsBuffer(gray) && AreBuffers(l) && gray != l.xx && gray != l.yy && gray != l.xy && Shows(gray, g, 0)
    requires 1 <= x < 63 && 0 <= y < 2 && initY == Cinit(id) / 2 && ProductsShow(l, id, g, x + 64 * y)
    modifies l.xx, l.yy, l.xy
    ensures ProductsShow(l, id, g, x + 1 + 64 * y) && OnlyParts(l, id)
  {
    hide Base, Cinit, Inner, Pixel, Lxx, Lyy, Lxy, Shows, PartShows;
    PartGrows(id, x, y, 1, initY);
    if y + initY == 0 || y + initY == 63 {
      PartSkips(l.xx, id, x + 64 * y, Lxx(g), 1);
      PartSkips(l.yy, id, x + 64 * y, Lyy(g), 1);
      PartSkips(l.xy, id, x + 64 * y, Lxy(g), 1);
      return;
    }
    var xx, yy, xy := SobelPixel(gray, id, x, y, g);
    var i := x + y * 64;
    Put(l.xx, id, i, xx, Lxx(g), 1);
    Put(l.yy, id, i, yy, Lyy(g), 1);
    Put(l.xy, id, i, xy, Lxy(g), 1);
  }

  /** The products of gradients at a tile's pixels. */
  method SobelTile(id: Tile, gray: array2<int>, l: Products, initY: nat, ghost g: Image)
    requires IsBuffer(gray) && AreBuffers(l) && gray != l.xx && gray != l.yy && gray != l.xy && Shows(gray, g, 0)
    requires initY == Cinit(id) / 2
    modifies l.xx, l.yy, l.xy
    ensures ProductsShow(l, id, g, CHUNK) && OnlyParts(l, id)
    ensures OthersKept(l.xx, id, Lxx(g), 1) && OthersKept(l.yy, id, Lyy(g), 1) && OthersKept(l.xy, id, Lxy(g), 1)
  {
    hide Base, Cinit, Inner, Shows;
    NothingShown(l.xx, id, Lxx(g), 1);
    NothingShown(l.yy, id, Lyy(g), 1);
    NothingShown(l.xy, id, Lxy(g), 1);
    for y := 0 to 2
      invariant ProductsShow(l, id, g, 64 * y) && OnlyParts(l, id)
    {
      SkipLeft(l.xx, id, Lxx(g), 1, y);
      SkipLeft(l.yy, id, Lyy(g), 1, y);
      SkipLeft(l.xy, id, Lxy(g), 1, y);
      for x := 1 to 63
        invariant ProductsShow(l, id, g, x + 64 * y) && OnlyParts(l, id)
      {
        SobelStep(id, gray, l, x, y, initY, g);
      }
      SkipRight(l.xx, id, Lxx(g), 1, y);
      SkipRight(l.yy, id, Lyy(g), 1, y);
      SkipRight(l.xy, id, Lxy(g), 1, y);
    }
  }

  lemma NothingShown(buf: array2<int>, id: Tile, f: Image, m: nat)
    requires IsBuffer(buf)
    ensures PartShows(buf, id, f, m, 0)
  {
  }

  // ---------------------------------------------------------------- corner response

  lemma ShortFits(v: int)
    requires -0x8000 <= v < 0x8000
    ensures Short(v) == v
  {
  }

  // Nine small numbers add up in 16 bits.
  lemma ShortSums(a: int, b: int, c: int, d: int, e: int, f: int, g: int, h: int, i: int)
    requires forall v :: v in [a, b, c, d, e, f, g, h, i] ==> -507 <= v <= 506
    ensures
      var s := Short(Short(Short(a) + Short(b)) + Short(c));
      var s := Short(Short(Short(s + Short(d)) + Short(e)) + Short(f));
      Short(Short(Short(s + Short(g)) + Short(h)) + Short(i)) == a + b + c + d + e + f + g + h + i
  {
    hide Short;
    var vs := [a, b, c, d, e, f, g, h, i];
    assert vs[0] in vs && vs[1] in vs && vs[2] in vs && vs[3] in vs && vs[4] in vs
      && vs[5] in vs && vs[6] in vs && vs[7] in vs && vs[8] in vs;
    ShortFits(a); ShortFits(b); ShortFits(c); ShortFits(d); ShortFits(e);
    ShortFits(f); ShortFits(g); ShortFits(h); ShortFits(i);
    ShortFits(a + b);
    ShortFits(a + b + c);
    ShortFits(a + b + c + d);
    ShortFits(a + b + c + d + e);
    ShortFits(a + b + c + d + e + f);
    ShortFits(a + b + c + d + e + f + g);
    ShortFits(a + b + c + d + e + f + g + h);
    ShortFits(a + b + c + d + e + f + g + h + i);
  }

  /** The window of a product around one pixel, summed in 16 bits. */
  method WindowPixel(buf: array2<int>, id: Tile, x: int, y: int, ghost l: Image) returns (sum: int)
    requires IsBuffer(buf) && Shows(buf, l, 1) && 0 <= x < 64 && 0 <= y < 2 && Inner(Pixel(id, x, y), 2) && Small(l)
    ensures sum == Window(l)(Pixel(id, x, y))
  {
    hide Shows, Inner, Pixel, Short;
    var s0, s1, s2, s3, s4, s5, s6, s7, s8 := ReadAround(buf, id, x, y, l, 1);
    ShortSums(s0, s1, s2, s3, s4, s5, s6, s7, s8);
    sum := Short(Short(Short(s0) + Short(s1)) + Short(s2));
    sum := Short(Short(Short(sum + Short(s3)) + Short(s4)) + Short(s5));
    sum := Short(Short(Short(sum + Short(s6)) + Short(s7)) + Short(s8));
    WindowRange(l, Pixel(id, x, y));
    ShortFits(sum / 64);
    sum := Short(sum / 64);
  }

  ghost predicate AllProducts(l: Products, g: Image)
    requires AreBuffers(l)
    reads l.xx, l.yy, l.xy
  {
    Shows(l.xx, Lxx(g), 1) && Shows(l.yy, Lyy(g), 1) && Shows(l.xy, Lxy(g), 1)
  }

  /** The corner response at one pixel. */
  method CimPixel(id: Tile, l: Products, x: int, y: int, ghost g: Image) returns (cim: int)
    requires AreBuffers(l) && AllProducts(l, g) && 0 <= x < 64 && 0 <= y < 2 && Inner(Pixel(id, x, y), 2)
    ensures cim == Cim(g)(Pixel(id, x, y))
  {
    hide Shows, Inner, Pixel, Short, Lxx, Lyy, Lxy, Window, Small, Cim;
    CimIs(g, Pixel(id, x, y));
    WindowsAreSmall(g, Pixel(id, x, y));
    var xx := WindowPixel(l.xx, id, x, y, Lxx(g));
    var yy := WindowPixel(l.yy, id, x, y, Lyy(g));
    var xy := WindowPixel(l.xy, id, x, y, Lxy(g));
    ResponseRange(xx, yy, xy);
    ShortFits(Det(xx, yy, xy));
    var det := Short(xx * yy - xy * xy);
    cim := Short(det) - (xx + yy) * (xx + yy) / 16;
  }

  lemma CimIs(g: Image, p: int)
    ensures Cim(g)(p) == Response(Window(Lxx(g))(p), Window(Lyy(g))(p), Window(Lxy(g))(p))
  {
    hide Response, Window, Lxx, Lyy, Lxy;
  }

  method CimTile(id: Tile, l: Products, cim: array2<int>, initY: nat, ghost g: Image)
    requires AreBuffers(l) && IsBuffer(cim) && cim != l.xx && cim != l.yy && cim != l.xy && AllProducts(l, g)
    requires initY == Cinit(id) / 2
    modifies cim
    ensures PartShows(cim, id, Cim(g), 2, CHUNK) && OnlyPart(cim, id) && OthersKept(cim, id, Cim(g), 2)
  {
    hide Base, Cinit, Inner, Shows, Pixel, Cim, Lxx, Lyy, Lxy;
    NothingShown(cim, id, Cim(g), 2);
    for y := 0 to 2
      invariant PartShows(cim, id, Cim(g), 2, 64 * y) && OnlyPart(cim, id)
    {
      SkipLeft(cim, id, Cim(g), 2, y);
      for x := 2 to 62
        invariant PartShows(cim, id, Cim(g), 2, x + 64 * y) && OnlyPart(cim, id)
      {
        PartGrows(id, x, y, 2, initY);
        if y + initY < 2 || y + initY > 61 {
          PartSkips(cim, id, x + 64 * y, Cim(g), 2);
          continue;
        }
        var v := CimPixel(id, l, x, y, g);
        Put(cim, id, x + y * 64, v, Cim(g), 2);
      }
      SkipRight(cim, id, Cim(g), 2, y);
    }
  }

  // ---------------------------------------------------------------- maxima

  /** Is the response at a pixel a corner? */
  method MaximaPixel(cim: array2<int>, id: Tile, x: int, y: int, ghost c: Image) returns (v: int)
    requires IsBuffer(cim) && Shows(cim, c, 2) && 0 <= x < 64 && 0 <= y < 2 && Inner(Pixel(id, x, y), 3)
    ensures v == Corners(c)(Pixel(id, x, y))
  {
    hide Shows, Inner, Pixel;
    var topLeft, top, topRight, left, current, right, botLeft, bot, botRight := ReadAround(cim, id, x, y, c, 2);
    if current > 1 {
      var isMax := current >= topLeft && current >= top && current >= left && current >= right
        && current >= botLeft && current >= bot && current >= botRight && current >= topRight;
      v := if isMax then 255 else 0;
    } else {
      v := 0;
    }
  }

  // Pixels of the first n words of a tile's part.
  ghost predicate Written(id: Tile, p: int, n: nat) { Base(id) <= p < Base(id) + n && Inner(p, 3) }

  // The output holds an image at a tile's first pixels and is as before elsewhere.
  ghost predicate OutputPart(before: seq<int>, after: seq<int>, id: Tile, f: Image, n: nat) {
    && |before| == |after| == PIXELS
    && forall p :: 0 <= p < PIXELS ==> after[p] == if Written(id, p, n) then f(p) else before[p]
  }

  method MaximaTile(id: Tile, cim: array2<int>, output: array<int>, initY: nat, ghost c: Image)
    requires IsBuffer(cim) && Shows(cim, c, 2) && output.Length == PIXELS && initY == Cinit(id) / 2
    modifies output
    ensures OutputPart(old(output[..]), output[..], id, Corners(c), CHUNK)
  {
    hide Base, Cinit, Inner, Shows, PartShows, Pixel, Corners, OutputPart;
    NothingWritten(output[..], id, Corners(c));
    for y := 0 to 2
      invariant OutputPart(old(output[..]), output[..], id, Corners(c), 64 * y)
    {
      OutputSkips(old(output[..]), output[..], id, Corners(c), 0, 3, y);
      for x := 3 to 61
        invariant OutputPart(old(output[..]), output[..], id, Corners(c), x + 64 * y)
      {
        PartGrows(id, x, y, 3, initY);
        if y + initY < 3 || y + initY > 60 {
          OutputSkips(old(output[..]), output[..], id, Corners(c), x, 1, y);
          continue;
        }
        RowsAreApart(id, id);
        var v := MaximaPixel(cim, id, x, y, c);
        ghost var before := output[..];
        InitialRow(id, initY);
        output[x + (y + initY) * 64] := v;
        OutputGrows(old(output[..]), before, output[..], id, Corners(c), x + 64 * y);
      }
      OutputSkips(old(output[..]), output[..], id, Corners(c), 61, 3, y);
    }
  }

  lemma InitialRow(id: Tile, initY: nat)
    requires initY == Cinit(id) / 2
    ensures Base(id) == 64 * initY
  {
  }

  lemma NothingWritten(s: seq<int>, id: Tile, f: Image)
    requires |s| == PIXELS
    ensures OutputPart(s, s, id, f, 0)
  {
  }

  lemma OutputGrows(s0: seq<int>, s1: seq<int>, s2: seq<int>, id: Tile, f: Image, n: nat)
    requires OutputPart(s0, s1, id, f, n) && n < CHUNK && 0 <= Base(id) <= PIXELS - CHUNK
    requires Inner(Base(id) + n, 3) && s2 == s1[Base(id) + n := f(Base(id) + n)]
    ensures OutputPart(s0, s2, id, f, n + 1)
  {
    hide Base, Inner;
  }

  // Columns or rows that are not inner are not written.
  lemma OutputSkips(s0: seq<int>, s1: seq<int>, id: Tile, f: Image, x: nat, w: nat, y: int)
    requires 0 <= y < 2 && x + w <= 64 && OutputPart(s0, s1, id, f, x + 64 * y)
    requires x + w <= 3 || x >= 61 || !(3 <= Row(id) + y < 61)
    ensures OutputPart(s0, s1, id, f, x + w + 64 * y)
  {
    hide Base, Inner, Row;
    var n, n' := x + 64 * y, x + w + 64 * y;
    forall p | 0 <= p < PIXELS ensures Written(id, p, n') == Written(id, p, n) {
      if Base(id) + x + 64 * y <= p < Base(id) + x + w + 64 * y {
        InnerColumn(id, p - Base(id) - 64 * y, y, 3);
      }
    }
  }

  // ---------------------------------------------------------------- phases

  // Between two barriers tiles take their turns in any order.
  ghost predicate AllTiles(order: seq<Tile>) { forall id: Tile :: id in order }

  method GrayPhase(order: seq<Tile>, a: seq<int>, gray: array2<int>)
    requires AllTiles(order) && IsPhoto(a) && IsBuffer(gray)
    modifies gray
    ensures Shows(gray, Gray(a), 0)
  {
    hide Base, Inner, IsPhoto, Gray;
    for i := 0 to |order|
      invariant forall id: Tile :: id in order[..i] ==> PartShows(gray, id, Gray(a), 0, CHUNK)
    {
      TakesTurn(order, i);
      var initY := Cinit(order[i]) / 2;
      InitialRow(order[i], initY);
      GrayTile(order[i], a, gray, 0 + initY * 64);
    }
    assert order[..|order|] == order;
  }

  lemma TakesTurn(order: seq<Tile>, i: nat)
    requires i < |order|
    ensures forall id: Tile :: id in order[..i + 1] <==> id in order[..i] || id == order[i]
  {
  }

  method SobelPhase(order: seq<Tile>, gray: array2<int>, l: Products, ghost g: Image)
    requires AllTiles(order) && IsBuffer(gray) && AreBuffers(l) && gray != l.xx && gray != l.yy && gray != l.xy
    requires Shows(gray, g, 0)
    modifies l.xx, l.yy, l.xy
    ensures AllProducts(l, g)
  {
    hide Base, Inner, Cinit, Lxx, Lyy, Lxy;
    for i := 0 to |order|
      invariant forall id: Tile :: id in order[..i] ==> PartShows(l.xx, id, Lxx(g), 1, CHUNK)
      invariant forall id: Tile :: id in order[..i] ==> PartShows(l.yy, id, Lyy(g), 1, CHUNK)
      invariant forall id: Tile :: id in order[..i] ==> PartShows(l.xy, id, Lxy(g), 1, CHUNK)
    {
      TakesTurn(order, i);
      SobelTile(order[i], gray, l, Cinit(order[i]) / 2, g);
    }
    assert order[..|order|] == order;
  }

  method CimPhase(order: seq<Tile>, l: Products, cim: array2<int>, ghost g: Image)
    requires AllTiles(order) && AreBuffers(l) && IsBuffer(cim) && cim != l.xx && cim != l.yy && cim != l.xy
    requires AllProducts(l, g)
    modifies cim
    ensures Shows(cim, Cim(g), 2)
  {
    hide Base, Inner, Cinit, Cim, AllProducts;
    for i := 0 to |order|
      invariant forall id: Tile :: id in order[..i] ==> PartShows(cim, id, Cim(g), 2, CHUNK)
    {
      TakesTurn(order, i);
      CimTile(order[i], l, cim, Cinit(order[i]) / 2, g);
    }
    assert order[..|order|] == order;
  }

  ghost predicate Owned(done: seq<Tile>, p: int) { exists id: Tile :: id in done && Base(id) <= p < Base(id) + CHUNK }

  // The output holds an image at the pixels of these tiles, and is as before
  // elsewhere.
  ghost predicate OutputOf(before: seq<int>, after: seq<int>, done: seq<Tile>, f: Image) {
    && |before| == |after| == PIXELS
    && forall p :: 0 <= p < PIXELS ==> after[p] == if Inner(p, 3) && Owned(done, p) then f(p) else before[p]
  }

  lemma OutputStep(s0: seq<int>, s1: seq<int>, s2: seq<int>, order: seq<Tile>, i: nat, f: Image)
    requires i < |order| && OutputOf(s0, s1, order[..i], f) && OutputPart(s1, s2, order[i], f, CHUNK)
    ensures OutputOf(s0, s2, order[..i + 1], f)
  {
    hide Base, Inner;
    TakesTurn(order, i);
    forall p | 0 <= p < PIXELS
      ensures Owned(order[..i + 1], p) <==> Owned(order[..i], p) || Base(order[i]) <= p < Base(order[i]) + CHUNK
    {
      if Owned(order[..i], p) {
        var id: Tile :| id in order[..i] && Base(id) <= p < Base(id) + CHUNK;
        assert id in order[..i + 1];
      }
    }
  }

  method MaximaPhase(order: seq<Tile>, cim: array2<int>, output: array<int>, ghost c: Image)
    requires AllTiles(order) && IsBuffer(cim) && Shows(cim, c, 2) && output.Length == PIXELS
    modifies output
    ensures forall p :: 0 <= p < PIXELS ==> output[p] == if Inner(p, 3) then Corners(c)(p) else old(output[p])
  {
    hide Base, Inner, Cinit, Corners, Shows, OutputPart, Owned;
    assert OutputOf(output[..], output[..], order[..0], Corners(c)) by { NoneOwned(order); }
    for i := 0 to |order|
      invariant OutputOf(old(output[..]), output[..], order[..i], Corners(c))
    {
      ghost var before := output[..];
      MaximaTile(order[i], cim, output, Cinit(order[i]) / 2, c);
      OutputStep(old(output[..]), before, output[..], order, i, Corners(c));
    }
    assert order[..|order|] == order;
    AllOwned(order);
    assert forall p :: 0 <= p < PIXELS ==> output[p] == output[..][p];
  }

  lemma NoneOwned(order: seq<Tile>)
    ensures forall p :: !Owned(order[..0], p)
  {
  }

  lemma AllOwned(order: seq<Tile>)
    requires AllTiles(order)
    ensures forall p :: 0 <= p < PIXELS ==> Owned(order, p)
  {
    hide Base;
    forall p | 0 <= p < PIXELS ensures Owned(order, p) {
      var id := EveryPixelIsOwned(p);
    }
  }

  /** The kernel on all tiles, a barrier between phases. Whatever the order of the
      tiles in each phase, every pixel three away from the edges is written once
      with the detector's answer. */
  method Kernel(a: seq<int>, output: array<int>, orders: seq<seq<Tile>>)
    requires IsPhoto(a) && output.Length == PIXELS && |orders| == 4 && forall i :: 0 <= i < 4 ==> AllTiles(orders[i])
    modifies output
    ensures forall p :: 0 <= p < PIXELS ==> output[p] == if Inner(p, 3) then Harris(a)(p) else old(output[p])
  {
    hide Base, Inner, Cinit, Corners, Cim, Lxx, Lyy, Lxy, Gray, Shows, IsPhoto, AllTiles;
    var gray := new int[TILES, CHUNK];
    var lxx, lyy, lxy := new int[TILES, CHUNK], new int[TILES, CHUNK], new int[TILES, CHUNK];
    var cim := new int[TILES, CHUNK];
    var l := Products(lxx, lyy, lxy);
    GrayPhase(orders[0], a, gray);
    SobelPhase(orders[1], gray, l, Gray(a));
    CimPhase(orders[2], l, cim, Gray(a));
    MaximaPhase(orders[3], cim, output, Cim(Gray(a)));
  }
}
