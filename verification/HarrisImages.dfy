// A Harris corner detector over a 64 by 64 image. Each of 8 by 4 tiles owns two
// rows; neighbouring rows are read from the tiles that own them, between barriers.
module HarrisImages {
  const N: nat := 64
  const PIXELS: nat := 4096

  /** An image gives a value to every pixel; pixel x, y has the number x + 64 * y. */
  type Image = int -> int

  // Pixels at least m columns and rows away from every edge.
  predicate Inner(p: int, m: nat) {
    0 <= p < PIXELS && m <= p % 64 < 64 - m && m <= p / 64 < 64 - m
  }

  // A number stored in 16 bits.
  function Short(v: int): int { (v + 0x8000) % 0x1_0000 - 0x8000 }

  // It is the number in range that differs by a multiple of 2^16.
  lemma ShortWraps(v: int)
    ensures -0x8000 <= Short(v) <= 0x7FFF && exists k: int :: v == Short(v) + 0x1_0000 * k
  {
    assert v == Short(v) + 0x1_0000 * ((v + 0x8000) / 0x1_0000);
  }

  // ---------------------------------------------------------------- the stages

  predicate IsPhoto(a: seq<int>) { |a| == 3 * PIXELS && forall i :: 0 <= i < |a| ==> 0 <= a[i] <= 255 }

  // Red, green and blue as a shade of gray.
  function Shade(r: int, g: int, b: int): int { (77 * r + 150 * g + 29 * b) / 256 }

  function Gray(a: seq<int>): Image {
    p => if 0 <= p < PIXELS && |a| == 3 * PIXELS then Shade(a[3 * p], a[3 * p + 1], a[3 * p + 2]) else 0
  }

  function Clamp(v: int): int { if v < -180 then -180 else if v > 180 then 180 else v }

  function GradX(g: Image, p: int): int { g(p - 63) - g(p - 65) - 2 * g(p - 1) + 2 * g(p + 1) - g(p + 63) + g(p + 65) }

  function GradY(g: Image, p: int): int { g(p - 65) + 2 * g(p - 64) + g(p - 63) - g(p + 63) - 2 * g(p + 64) - g(p + 65) }

  // Products of clamped gradients.
  function Lxx(g: Image): Image { p => Clamp(GradX(g, p)) * Clamp(GradX(g, p)) / 64 }

  function Lyy(g: Image): Image { p => Clamp(GradY(g, p)) * Clamp(GradY(g, p)) / 64 }

  function Lxy(g: Image): Image { p => Clamp(GradX(g, p)) * Clamp(GradY(g, p)) / 64 }

  function Sum9(l: Image, p: int): int {
    l(p - 65) + l(p - 64) + l(p - 63) + l(p - 1) + l(p) + l(p + 1) + l(p + 63) + l(p + 64) + l(p + 65)
  }

  function Window(l: Image): Image { p => Sum9(l, p) / 64 }

  // The corner response of three windowed products.
  function Det(xx: int, yy: int, xy: int): int { xx * yy - xy * xy }

  function Trace(xx: int, yy: int): int { (xx + yy) * (xx + yy) / 16 }

  function Response(xx: int, yy: int, xy: int): int { Det(xx, yy, xy) - Trace(xx, yy) }

  function Cim(g: Image): Image { p => Response(Window(Lxx(g))(p), Window(Lyy(g))(p), Window(Lxy(g))(p)) }

  predicate Peak(c: Image, p: int) {
    && c(p) >= c(p - 65) && c(p) >= c(p - 64) && c(p) >= c(p - 63) && c(p) >= c(p - 1)
    && c(p) >= c(p + 1) && c(p) >= c(p + 63) && c(p) >= c(p + 64) && c(p) >= c(p + 65)
  }

  function Corners(c: Image): Image { p => if c(p) > 1 && Peak(c, p) then 255 else 0 }

  // The whole pipeline.
  function Harris(a: seq<int>): Image { Corners(Cim(Gray(a))) }

  // The arithmetic of the stages, with the program's own constants.
  lemma StagesAsNumbers(r: int, g: int, b: int, v: int, l: Image, p: int, xx: int, yy: int, xy: int)
    ensures Shade(r, g, b) == (77 * r + 150 * g + 29 * b) / 256
    ensures -180 <= Clamp(v) <= 180 && (-180 <= v <= 180 ==> Clamp(v) == v) && (v > 180 ==> Clamp(v) == 180)
    ensures v < -180 ==> Clamp(v) == -180
    ensures Window(l)(p) ==
      (l(p - 65) + l(p - 64) + l(p - 63) + l(p - 1) + l(p) + l(p + 1) + l(p + 63) + l(p + 64) + l(p + 65)) / 64
    ensures Response(xx, yy, xy) == xx * yy - xy * xy - (xx + yy) * (xx + yy) / 16
  {
  }

  // ---------------------------------------------------------------- ranges

  lemma GrayRange(a: seq<int>, p: int)
    requires IsPhoto(a)
    ensures 0 <= Gray(a)(p) <= 255
  {
  }

  lemma ProductRange(x: int, y: int)
    requires -180 <= x <= 180 && -180 <= y <= 180
    ensures -507 <= x * y / 64 <= 506 && x * x / 64 >= 0
  {
    MulRange(x, y, 180);
    Square(x);
  }

  lemma Square(x: int)
    ensures x * x >= 0
  {
  }

  // Products of gradients are small in any image, and so are their windows.
  lemma ProductsAreSmall(g: Image, p: int)
    ensures -507 <= Lxx(g)(p) <= 506 && -507 <= Lyy(g)(p) <= 506 && -507 <= Lxy(g)(p) <= 506
  {
    hide GradX, GradY;
    var x, y := Clamp(GradX(g, p)), Clamp(GradY(g, p));
    ProductRange(x, x);
    ProductRange(y, y);
    ProductRange(x, y);
  }

  ghost predicate Small(l: Image) { forall p :: -507 <= l(p) <= 506 }

  lemma WindowRange(l: Image, p: int)
    requires Small(l)
    ensures -72 <= Window(l)(p) <= 71
  {
  }

  lemma WindowsAreSmall(g: Image, p: int)
    ensures Small(Lxx(g)) && Small(Lyy(g)) && Small(Lxy(g))
    ensures -72 <= Window(Lxx(g))(p) <= 71 && -72 <= Window(Lyy(g))(p) <= 71 && -72 <= Window(Lxy(g))(p) <= 71
  {
    hide Lxx, Lyy, Lxy, Window;
    forall q ensures -507 <= Lxx(g)(q) <= 506 && -507 <= Lyy(g)(q) <= 506 && -507 <= Lxy(g)(q) <= 506 {
      ProductsAreSmall(g, q);
    }
    WindowRange(Lxx(g), p);
    WindowRange(Lyy(g), p);
    WindowRange(Lxy(g), p);
  }

  // The corner response of small windows needs 16 bits only, as does its first part.
  lemma ResponseRange(xx: int, yy: int, xy: int)
    requires -72 <= xx <= 71 && -72 <= yy <= 71 && -72 <= xy <= 71
    ensures -0x8000 <= Det(xx, yy, xy) < 0x8000 && -0x8000 <= Response(xx, yy, xy) < 0x8000
  {
    MulRange(xx, yy, 72);
    MulRange(xy, xy, 72);
    MulRange(xx + yy, xx + yy, 144);
  }

  lemma MulRange(x: int, y: int, m: int)
    requires -m <= x <= m && -m <= y <= m
    ensures -(m * m) <= x * y <= m * m
  {
    assert (m - x) * (m + y) >= 0 && (m + x) * (m - y) >= 0;
    assert (m - x) * (m - y) >= 0 && (m + x) * (m + y) >= 0;
  }

  // Pixels around an inner pixel.
  lemma Around(p: int, m: nat)
    requires Inner(p, m + 1)
    ensures Inner(p, m) && Inner(p - 1, m) && Inner(p + 1, m)
    ensures Inner(p - 64, m) && Inner(p - 65, m) && Inner(p - 63, m)
    ensures Inner(p + 64, m) && Inner(p + 63, m) && Inner(p + 65, m)
  {
    var x, y := p % 64, p / 64;
    assert p == x + 64 * y;
    InnerAt(x, y, m);
    InnerAt(x - 1, y, m);
    InnerAt(x + 1, y, m);
    InnerAt(x - 1, y - 1, m);
    InnerAt(x, y - 1, m);
    InnerAt(x + 1, y - 1, m);
    InnerAt(x - 1, y + 1, m);
    InnerAt(x, y + 1, m);
    InnerAt(x + 1, y + 1, m);
  }

  lemma InnerAt(x: int, y: int, m: nat)
    requires m <= x < 64 - m && m <= y < 64 - m
    ensures Inner(x + 64 * y, m)
  {
    assert (x + 64 * y) / 64 == y;
  }
}
