// Coordinates and the column-major scan of a rectangle.
module Coordinates {
  import opened Bits

  /** An (x, y) pair; also used for dimensions. */
  datatype Coord = Coord(x: nat, y: nat)

  function Add(a: Coord, b: Coord): Coord { Coord(a.x + b.x, a.y + b.y) }

  predicate InRect(c: Coord, origin: Coord, dim: Coord) {
    origin.x <= c.x < origin.x + dim.x && origin.y <= c.y < origin.y + dim.y
  }

  // ---------------------------------------------------------------- flat index

  function ToIndex(c: Coord, dim: Coord): nat { c.x * dim.y + c.y }

  function FromIndex(i: nat, dim: Coord): Coord
    requires dim.y > 0
  {
    Coord(Quot(i, dim.y), Rem(i, dim.y))
  }

  // Index and coordinate determine each other inside a rectangle.
  lemma IndexRoundTrip(c: Coord, dim: Coord)
    requires c.x < dim.x && c.y < dim.y
    ensures FromIndex(ToIndex(c, dim), dim) == c
    ensures ToIndex(c, dim) == c.x * dim.y + c.y < dim.x * dim.y
  {
    DivModUnique(ToIndex(c, dim), dim.y, c.x, c.y);
    ProductSign(dim.x - 1 - c.x, dim.y);
    assert (dim.x - 1 - c.x) * dim.y == dim.x * dim.y - dim.y - c.x * dim.y;
  }

  lemma CoordRoundTrip(i: nat, dim: Coord)
    requires dim.y > 0 && i < dim.x * dim.y
    ensures var c := FromIndex(i, dim); c.x < dim.x && c.y < dim.y && ToIndex(c, dim) == i
  {
    var c := FromIndex(i, dim);
    QuotRem(i, dim.y);
    assert c.x * dim.y <= i < dim.x * dim.y;
    assert dim.x * dim.y - dim.y == (dim.x - 1) * dim.y;
    FactorsOrdered(dim.x, c.x + 1, dim.y);
  }

  // ---------------------------------------------------------------- scanning

  /** The next coordinate of a scan: y runs fastest. */
  function Next(now: Coord, origin: Coord, dim: Coord): Coord {
    if now.y + 1 >= origin.y + dim.y then Coord(now.x + 1, origin.y) else Coord(now.x, now.y + 1)
  }

  predicate Stop(now: Coord, origin: Coord, dim: Coord) {
    now.x >= origin.x + dim.x || now.y >= origin.y + dim.y
  }

  /** Scan order. */
  predicate Before(a: Coord, b: Coord) {
    a.x < b.x || (a.x == b.x && a.y < b.y)
  }

  // Where a scan of a non-empty rectangle can stand.
  predicate Scanning(now: Coord, origin: Coord, dim: Coord) {
    && dim.x >= 1 && dim.y >= 1
    && origin.y <= now.y < origin.y + dim.y
    && origin.x <= now.x <= origin.x + dim.x
    && (now.x == origin.x + dim.x ==> now.y == origin.y)
  }

  // The coordinates of the rectangle that the scan has passed.
  ghost predicate Passed(c: Coord, now: Coord, origin: Coord, dim: Coord) {
    InRect(c, origin, dim) && Before(c, now)
  }

  lemma ScanStep(now: Coord, origin: Coord, dim: Coord)
    requires Scanning(now, origin, dim) && !Stop(now, origin, dim)
    ensures InRect(now, origin, dim)
    ensures Scanning(Next(now, origin, dim), origin, dim)
    ensures forall c :: Passed(c, Next(now, origin, dim), origin, dim) <==> Passed(c, now, origin, dim) || c == now
  {
  }

  lemma ScanDone(now: Coord, origin: Coord, dim: Coord)
    requires Scanning(now, origin, dim) && Stop(now, origin, dim)
    ensures forall c :: Passed(c, now, origin, dim) <==> InRect(c, origin, dim)
  {
  }

  /** The whole sequence of coordinates a scan visits from now on. */
  ghost function ScanFrom(now: Coord, origin: Coord, dim: Coord): seq<Coord>
    requires Scanning(now, origin, dim)
    decreases origin.x + dim.x - now.x, origin.y + dim.y - now.y
  {
    if Stop(now, origin, dim) then []
    else [now] + ScanFrom(Next(now, origin, dim), origin, dim)
  }

  // A scan visits every coordinate of the rectangle exactly once, in order.
  lemma {:induction false} ScanVisitsAllOnce(now: Coord, origin: Coord, dim: Coord)
    requires Scanning(now, origin, dim)
    ensures var s := ScanFrom(now, origin, dim);
      && (forall c :: c in s <==> InRect(c, origin, dim) && !Before(c, now))
      && (forall i, j :: 0 <= i < j < |s| ==> Before(s[i], s[j]))
    decreases origin.x + dim.x - now.x, origin.y + dim.y - now.y
  {
    if !Stop(now, origin, dim) {
      var next := Next(now, origin, dim);
      ScanVisitsAllOnce(next, origin, dim);
      var rest := ScanFrom(next, origin, dim);
      forall i | 0 <= i < |rest| ensures Before(now, rest[i]) {
        assert rest[i] in rest;
      }
    }
  }
}
