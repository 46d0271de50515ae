// The host's side: the same detector stage by stage over whole images, and the
// comparison of the two results.
module HarrisHost {
  import opened HarrisImages
  import opened HarrisKernel

  // The pixels of an array m away from the edges hold an image.
  ghost predicate Holds(s: seq<int>, f: Image, m: nat) {
    |s| == PIXELS && forall p :: 0 <= p < PIXELS && Inner(p, m) ==> s[p] == f(p)
  }

  /** Grayscale. */
  method RgbToGray(a: seq<int>, gray: array<int>)
    requires IsPhoto(a) && gray.Length == PIXELS
    modifies gray
    ensures Holds(gray[..], Gray(a), 0) && forall p :: 0 <= p < PIXELS ==> gray[p] == Gray(a)(p)
    ensures forall p :: 0 <= p < PIXELS ==> gray[p] == (77 * a[3 * p] + 150 * a[3 * p + 1] + 29 * a[3 * p + 2]) / 256
  {
    hide Inner;
    for y := 0 to 64
      invariant forall p :: 0 <= p < 64 * y ==> gray[p] == Gray(a)(p)
    {
      for x := 0 to 64
        invariant forall p :: 0 <= p < x + 64 * y ==> gray[p] == Gray(a)(p)
      {
        var middle := x + y * 64;
        ShadeFits(a, middle);
        gray[middle] := Short((77 * a[middle * 3] + 150 * a[middle * 3 + 1] + 29 * a[middle * 3 + 2]) / 256);
      }
    }
  }

  lemma ShadeFits(a: seq<int>, p: int)
    requires IsPhoto(a) && 0 <= p < PIXELS
    ensures Short(Shade(a[p * 3], a[p * 3 + 1], a[p * 3 + 2])) == Gray(a)(p)
  {
    hide Short;
    GrayRange(a, p);
    ShortFits(Gray(a)(p));
  }

  // ---------------------------------------------------------------- taps

  const KERNEL_X: seq<int> := [-1, 0, 1, -2, 0, 2, -1, 0, 1]
  const KERNEL_Y: seq<int> := [1, 2, 1, 0, 0, 0, -1, -2, -1]

  function Weighted(taps: seq<int>, w: seq<int>, n: nat): int
    requires |taps| == |w| == 9 && n <= 9
  {
    if n == 0 then 0 else Weighted(taps, w, n - 1) + taps[n - 1] * w[n - 1]
  }

  lemma Weighted9(t: seq<int>, w: seq<int>)
    requires |t| == |w| == 9
    ensures Weighted(t, w, 9) == t[0] * w[0] + t[1] * w[1] + t[2] * w[2] + t[3] * w[3] + t[4] * w[4]
      + t[5] * w[5] + t[6] * w[6] + t[7] * w[7] + t[8] * w[8]
  {
    assert Weighted(t, w, 1) == Weighted(t, w, 0) + t[0] * w[0];
    assert Weighted(t, w, 3) == Weighted(t, w, 2) + t[2] * w[2] == Weighted(t, w, 1) + t[1] * w[1] + t[2] * w[2];
    assert Weighted(t, w, 5) == Weighted(t, w, 4) + t[4] * w[4] == Weighted(t, w, 3) + t[3] * w[3] + t[4] * w[4];
    assert Weighted(t, w, 7) == Weighted(t, w, 6) + t[6] * w[6] == Weighted(t, w, 5) + t[5] * w[5] + t[6] * w[6];
    assert Weighted(t, w, 9) == Weighted(t, w, 8) + t[8] * w[8] == Weighted(t, w, 7) + t[7] * w[7] + t[8] * w[8];
  }

  lemma {:induction false} WeightedRange(t: seq<int>, w: seq<int>, n: nat)
    requires |t| == |w| == 9 && n <= 9 && (forall v :: v in t ==> 0 <= v <= 255) && (w == KERNEL_X || w == KERNEL_Y)
    ensures -510 * n <= Weighted(t, w, n) <= 510 * n
  {
    if n > 0 {
      WeightedRange(t, w, n - 1);
      assert t[n - 1] in t;
      assert -2 <= w[n - 1] <= 2;
      TapRange(t[n - 1], w[n - 1]);
    }
  }

  lemma TapRange(v: int, w: int)
    requires 0 <= v <= 255 && -2 <= w <= 2
    ensures -510 <= v * w <= 510
  {
    if w == -2 { } else if w == -1 { } else if w == 0 { } else if w == 1 { } else { }
  }

  function Clip(v: int): int { if v < 0 then 0 else if v > 63 then 63 else v }

  // The pixels around x, y, row by row; beyond an edge, the pixel at the edge.
  ghost function Taps(gray: seq<int>, x: int, y: int): (t: seq<int>)
    requires |gray| == PIXELS
    ensures |t| == 9
  {
    seq(9, (n: nat) requires n < 9 => gray[Clip(y + n / 3 - 1) * 64 + Clip(x + n % 3 - 1)])
  }

  /** Sobel's two gradients at one pixel. */
  method SobelAt(gray: array<int>, x: int, y: int) returns (gx: int, gy: int)
    requires gray.Length == PIXELS && (forall p :: 0 <= p < PIXELS ==> 0 <= gray[p] <= 255) && 0 <= x < 64 && 0 <= y < 64
    ensures gx == Weighted(Taps(gray[..], x, y), KERNEL_X, 9) && gy == Weighted(Taps(gray[..], x, y), KERNEL_Y, 9)
  {
    hide Short, Weighted, Taps;
    ghost var t := Taps(gray[..], x, y);
    TapsAreGray(gray[..], x, y);
    gx, gy := 0, 0;
    WeightedZero(t);
    for ky := -1 to 2
      invariant gx == Weighted(t, KERNEL_X, 3 * (ky + 1)) && gy == Weighted(t, KERNEL_Y, 3 * (ky + 1))
    {
      for kx := -1 to 2
        invariant gx == Weighted(t, KERNEL_X, 3 * (ky + 1) + kx + 1) && gy == Weighted(t, KERNEL_Y, 3 * (ky + 1) + kx + 1)
      {
        var pixelX, pixelY := x + kx, y + ky;
        if pixelX < 0 { pixelX := 0; } else if pixelX > 63 { pixelX := 63; }
        if pixelY < 0 { pixelY := 0; } else if pixelY > 63 { pixelY := 63; }
        var pixel := gray[pixelY * 64 + pixelX];
        ghost var n := 3 * (ky + 1) + kx + 1;
        TapIs(gray[..], x, y, ky, kx);
        WeightedStep(t, KERNEL_X, n);
        WeightedStep(t, KERNEL_Y, n);
        gx := Short(gx + pixel * KERNEL_X[(ky + 1) * 3 + kx + 1]);
        gy := Short(gy + pixel * KERNEL_Y[(ky + 1) * 3 + kx + 1]);
      }
    }
  }

  lemma TapsAreGray(gray: seq<int>, x: int, y: int)
    requires |gray| == PIXELS && forall p :: 0 <= p < PIXELS ==> 0 <= gray[p] <= 255
    ensures forall v :: v in Taps(gray, x, y) ==> 0 <= v <= 255
  {
  }

  lemma TapIs(gray: seq<int>, x: int, y: int, ky: int, kx: int)
    requires |gray| == PIXELS && -1 <= ky <= 1 && -1 <= kx <= 1
    ensures Taps(gray, x, y)[3 * (ky + 1) + kx + 1] == gray[Clip(y + ky) * 64 + Clip(x + kx)]
  {
    var n := 3 * (ky + 1) + kx + 1;
    assert n / 3 == ky + 1 && n % 3 == kx + 1;
  }

  lemma WeightedZero(t: seq<int>)
    requires |t| == 9
    ensures Weighted(t, KERNEL_X, 0) == 0 && Weighted(t, KERNEL_Y, 0) == 0
  {
  }

  lemma WeightedStep(t: seq<int>, w: seq<int>, n: nat)
    requires |t| == |w| == 9 && n < 9 && (forall v :: v in t ==> 0 <= v <= 255) && (w == KERNEL_X || w == KERNEL_Y)
    ensures Weighted(t, w, n + 1) == Short(Weighted(t, w, n) + t[n] * w[n])
  {
    hide Short;
    WeightedRange(t, w, n + 1);
    ShortFits(Weighted(t, w, n + 1));
  }

  // Around an inner pixel nothing is clipped.
  lemma InnerTaps(gray: seq<int>, f: Image, x: int, y: int, m: nat, p: int)
    requires Holds(gray, f, m) && 0 <= x < 64 && 0 <= y < 64 && p == x + 64 * y && Inner(p, m + 1)
    ensures var t := Taps(gray, x, y);
      && t[0] == f(p - 65) && t[1] == f(p - 64) && t[2] == f(p - 63) && t[3] == f(p - 1) && t[4] == f(p)
      && t[5] == f(p + 1) && t[6] == f(p + 63) && t[7] == f(p + 64) && t[8] == f(p + 65)
  {
    NotAtEdge(x, y, m);
    Around(p, m);
    hide Taps, Inner, Holds;
    TapAt(gray, f, x, y, m, -1, -1, 0, p - 65);
    TapAt(gray, f, x, y, m, -1, 0, 1, p - 64);
    TapAt(gray, f, x, y, m, -1, 1, 2, p - 63);
    TapAt(gray, f, x, y, m, 0, -1, 3, p - 1);
    TapAt(gray, f, x, y, m, 0, 0, 4, p);
    TapAt(gray, f, x, y, m, 0, 1, 5, p + 1);
    TapAt(gray, f, x, y, m, 1, -1, 6, p + 63);
    TapAt(gray, f, x, y, m, 1, 0, 7, p + 64);
    TapAt(gray, f, x, y, m, 1, 1, 8, p + 65);
  }

  lemma NotAtEdge(x: int, y: int, m: nat)
    requires 0 <= x < 64 && 0 <= y < 64
    ensures Inner(x + 64 * y, m) <==> m <= x < 64 - m && m <= y < 64 - m
    ensures Inner(x + 64 * y, m + 1) ==> 1 <= x < 63 && 1 <= y < 63
  {
  }

  lemma TapAt(gray: seq<int>, f: Image, x: int, y: int, m: nat, ky: int, kx: int, n: nat, q: int)
    requires Holds(gray, f, m) && 1 <= x < 63 && 1 <= y < 63 && -1 <= ky <= 1 && -1 <= kx <= 1
    requires n == 3 * (ky + 1) + kx + 1 && q == x + 64 * y + 64 * ky + kx && Inner(q, m)
    ensures Taps(gray, x, y)[n] == f(q)
  {
    hide Taps, Inner;
    TapIs(gray, x, y, ky, kx);
    InnerIsPixel(q, m);
  }

  lemma InnerIsPixel(p: int, m: nat)
    requires Inner(p, m)
    ensures 0 <= p < PIXELS
  {
  }

  lemma GradientsOfTaps(gray: seq<int>, g: Image, x: int, y: int)
    requires Holds(gray, g, 0) && 0 <= x < 64 && 0 <= y < 64 && Inner(x + 64 * y, 1)
    ensures Weighted(Taps(gray, x, y), KERNEL_X, 9) == GradX(g, x + 64 * y)
    ensures Weighted(Taps(gray, x, y), KERNEL_Y, 9) == GradY(g, x + 64 * y)
  {
    hide Weighted, Taps, Inner;
    InnerTaps(gray, g, x, y, 0, x + 64 * y);
    Weighted9(Taps(gray, x, y), KERNEL_X);
    Weighted9(Taps(gray, x, y), KERNEL_Y);
  }

  // ---------------------------------------------------------------- stages

  // Column and row of a pixel.
  lemma ColumnAndRow(x: int, y: int)
    requires 0 <= x < 64 && 0 <= y < 64
    ensures (x + 64 * y) % 64 == x && (x + 64 * y) / 64 == y && 0 <= x + 64 * y < PIXELS
  {
  }

  /** Both gradients of the whole image. */
  method ApplySobelFilter(gray: array<int>, gradX: array<int>, gradY: array<int>)
    requires gray.Length == gradX.Length == gradY.Length == PIXELS && gray != gradX && gray != gradY && gradX != gradY
    requires forall p :: 0 <= p < PIXELS ==> 0 <= gray[p] <= 255
    modifies gradX, gradY
    ensures forall p :: 0 <= p < PIXELS ==> gradX[p] == Weighted(Taps(gray[..], p % 64, p / 64), KERNEL_X, 9)
    ensures forall p :: 0 <= p < PIXELS ==> gradY[p] == Weighted(Taps(gray[..], p % 64, p / 64), KERNEL_Y, 9)
  {
    hide Taps, Weighted;
    for y := 0 to 64
      invariant forall p :: 0 <= p < 64 * y ==> gradX[p] == Weighted(Taps(gray[..], p % 64, p / 64), KERNEL_X, 9)
      invariant forall p :: 0 <= p < 64 * y ==> gradY[p] == Weighted(Taps(gray[..], p % 64, p / 64), KERNEL_Y, 9)
    {
      for x := 0 to 64
        invariant forall p :: 0 <= p < x + 64 * y ==> gradX[p] == Weighted(Taps(gray[..], p % 64, p / 64), KERNEL_X, 9)
        invariant forall p :: 0 <= p < x + 64 * y ==> gradY[p] == Weighted(Taps(gray[..], p % 64, p / 64), KERNEL_Y, 9)
      {
        var gx, gy := SobelAt(gray, x, y);
        ColumnAndRow(x, y);
        gradX[y * 64 + x] := gx;
        gradY[y * 64 + x] := gy;
      }
    }
  }

  /** Limit every gradient. */
  method ClampGradients(grad: array<int>)
    requires grad.Length == PIXELS
    modifies grad
    ensures forall p :: 0 <= p < PIXELS ==> grad[p] == Clamp(old(grad[p]))
  {
    for i := 0 to PIXELS
      invariant forall p :: 0 <= p < PIXELS ==> grad[p] == if p < i then Clamp(old(grad[p])) else old(grad[p])
    {
      if grad[i] < -180 { grad[i] := -180; } else if grad[i] > 180 { grad[i] := 180; }
    }
  }

  /** Products of clamped gradients. */
  method CalculateProduct(gradX: array<int>, gradY: array<int>, lxx: array<int>, lyy: array<int>, lxy: array<int>)
    requires gradX.Length == gradY.Length == lxx.Length == lyy.Length == lxy.Length == PIXELS
    requires lxx != lyy && lxx != lxy && lyy != lxy && gradX !in {lxx, lyy, lxy} && gradY !in {lxx, lyy, lxy}
    requires forall p :: 0 <= p < PIXELS ==> -180 <= gradX[p] <= 180 && -180 <= gradY[p] <= 180
    modifies lxx, lyy, lxy
    ensures forall p :: 0 <= p < PIXELS ==> lxx[p] == Scaled(gradX[p], gradX[p])
    ensures forall p :: 0 <= p < PIXELS ==> lyy[p] == Scaled(gradY[p], gradY[p])
    ensures forall p :: 0 <= p < PIXELS ==> lxy[p] == Scaled(gradX[p], gradY[p])
  {
    hide Short;
    for i := 0 to PIXELS
      invariant forall p :: 0 <= p < i ==> lxx[p] == Scaled(gradX[p], gradX[p])
      invariant forall p :: 0 <= p < i ==> lyy[p] == Scaled(gradY[p], gradY[p])
      invariant forall p :: 0 <= p < i ==> lxy[p] == Scaled(gradX[p], gradY[p])
    {
      ScaledFits(gradX[i], gradX[i]);
      ScaledFits(gradY[i], gradY[i]);
      ScaledFits(gradX[i], gradY[i]);
      lxx[i] := Short(gradX[i] * gradX[i] / 64);
      lyy[i] := Short(gradY[i] * gradY[i] / 64);
      lxy[i] := Short(gradX[i] * gradY[i] / 64);
    }
  }

  function Scaled(x: int, y: int): int { x * y / 64 }

  lemma ScaledFits(x: int, y: int)
    requires -180 <= x <= 180 && -180 <= y <= 180
    ensures Short(Scaled(x, y)) == Scaled(x, y)
  {
    hide Short;
    ProductRange(x, y);
    ShortFits(Scaled(x, y));
  }

  const ONES: seq<int> := [1, 1, 1, 1, 1, 1, 1, 1, 1]

  /** The sum of the nine values around a pixel. */
  method SumAt(src: array<int>, x: int, y: int) returns (sum: int)
    requires src.Length == PIXELS && 1 <= x < 63 && 1 <= y < 63
    ensures sum == Weighted(Taps(src[..], x, y), ONES, 9)
  {
    hide Weighted, Taps;
    ghost var t := Taps(src[..], x, y);
    OnesZero(t);
    sum := 0;
    for ky := -1 to 2
      invariant sum == Weighted(t, ONES, 3 * (ky + 1))
    {
      for kx := -1 to 2
        invariant sum == Weighted(t, ONES, 3 * (ky + 1) + kx + 1)
      {
        TapIs(src[..], x, y, ky, kx);
        OnesStep(t, 3 * (ky + 1) + kx + 1);
        sum := sum + src[(y + ky) * 64 + (x + kx)];
      }
    }
  }

  lemma OnesZero(t: seq<int>)
    requires |t| == 9
    ensures Weighted(t, ONES, 0) == 0
  {
  }

  lemma OnesStep(t: seq<int>, n: nat)
    requires |t| == 9 && n < 9
    ensures Weighted(t, ONES, n + 1) == Weighted(t, ONES, n) + t[n]
  {
  }

  // The nearest column or row that is not at an edge.
  function Nearest(v: int): int { if v == 0 then 1 else if v == 63 then 62 else v }

  ghost function WindowValue(src: seq<int>, p: int): int
    requires |src| == PIXELS
  {
    Weighted(Taps(src, Nearest(p % 64), Nearest(p / 64)), ONES, 9) / 64
  }

  /** The windowed image; pixels at an edge repeat their neighbours. */
  method WindowOperation(src: array<int>, dest: array<int>)
    requires src.Length == dest.Length == PIXELS && src != dest
    requires forall p :: 0 <= p < PIXELS ==> -0x8000 <= src[p] < 0x8000
    modifies dest
    ensures forall p :: 0 <= p < PIXELS ==> dest[p] == WindowValue(src[..], p)
  {
    hide Weighted, Taps, WindowValue, Inner, Short;
    InnerRows();
    for y := 1 to 63
      invariant forall p :: 0 <= p < 64 * y && Inner(p, 1) ==> dest[p] == WindowValue(src[..], p)
    {
      FirstColumn(y);
      for x := 1 to 63
        invariant forall p :: 0 <= p < x + 64 * y && Inner(p, 1) ==> dest[p] == WindowValue(src[..], p)
      {
        var sum := SumAt(src, x, y);
        ColumnAndRow(x, y);
        WindowFits(src[..], x, y);
        dest[y * 64 + x] := Short(sum / 64);
      }
      LastColumn(y);
    }
    for y := 0 to 64
      invariant forall p :: 0 <= p < PIXELS && (p < 64 * y || Inner(p, 1)) ==> dest[p] == WindowValue(src[..], p)
    {
      for x := 0 to 64
        invariant forall p :: 0 <= p < PIXELS && (p < x + 64 * y || Inner(p, 1)) ==> dest[p] == WindowValue(src[..], p)
      {
        var actualX, actualY := x, y;
        if x == 0 { actualX := 1; } else if x == 63 { actualX := 62; }
        if y == 0 { actualY := 1; } else if y == 63 { actualY := 62; }
        SameWindow(src[..], x, y);
        dest[y * 64 + x] := dest[actualY * 64 + actualX];
      }
    }
  }

  lemma FirstColumn(y: int)
    requires 1 <= y < 63
    ensures !Inner(64 * y, 1)
  {
  }

  lemma LastColumn(y: int)
    requires 1 <= y < 63
    ensures !Inner(63 + 64 * y, 1)
  {
  }

  lemma InnerRows()
    ensures forall p :: Inner(p, 1) ==> 64 <= p < 64 * 63
  {
  }

  lemma SameWindow(src: seq<int>, x: int, y: int)
    requires |src| == PIXELS && 0 <= x < 64 && 0 <= y < 64
    ensures Inner(Nearest(x) + 64 * Nearest(y), 1)
    ensures WindowValue(src, Nearest(x) + 64 * Nearest(y)) == WindowValue(src, x + 64 * y)
  {
    hide Weighted, Taps;
    ColumnAndRow(x, y);
    ColumnAndRow(Nearest(x), Nearest(y));
  }

  lemma WindowFits(src: seq<int>, x: int, y: int)
    requires |src| == PIXELS && (forall p :: 0 <= p < PIXELS ==> -0x8000 <= src[p] < 0x8000) && 1 <= x < 63 && 1 <= y < 63
    ensures Short(Weighted(Taps(src, x, y), ONES, 9) / 64) == Weighted(Taps(src, x, y), ONES, 9) / 64
    ensures WindowValue(src, x + 64 * y) == Weighted(Taps(src, x, y), ONES, 9) / 64
  {
    hide Short;
    ColumnAndRow(x, y);
    hide Weighted;
    var t := Taps(src, x, y);
    assert forall v :: v in t ==> -0x8000 <= v < 0x8000;
    hide Taps;
    OnesRange(t, 9);
    ShortFits(Weighted(t, ONES, 9) / 64);
  }

  lemma {:induction false} OnesRange(t: seq<int>, n: nat)
    requires |t| == 9 && n <= 9 && forall v :: v in t ==> -0x8000 <= v < 0x8000
    ensures -0x8000 * n <= Weighted(t, ONES, n) <= 0x8000 * n
  {
    if n > 0 {
      OnesRange(t, n - 1);
      assert t[n - 1] in t;
    }
  }

  /** The corner response of every pixel. */
  method CalculateCim(xx: array<int>, yy: array<int>, xy: array<int>, cim: array<int>)
    requires xx.Length == yy.Length == xy.Length == cim.Length == PIXELS && cim !in {xx, yy, xy}
    modifies cim
    ensures forall p :: 0 <= p < PIXELS ==> cim[p] == Short(Response(xx[p], yy[p], xy[p]))
  {
    hide Short;
    for i := 0 to PIXELS
      invariant forall p :: 0 <= p < i ==> cim[p] == Short(Response(xx[p], yy[p], xy[p]))
    {
      var det := xx[i] * yy[i] - xy[i] * xy[i];
      var traceSq := (xx[i] + yy[i]) * (xx[i] + yy[i]) / 16;
      cim[i] := Short(det - traceSq);
    }
  }

  // No neighbour of a pixel has a larger response.
  ghost predicate PeakOf(t: seq<int>, n: nat)
    requires |t| == 9 && n <= 9
  {
    forall i :: 0 <= i < n && i != 4 ==> t[i] <= t[4]
  }

  /** Is the response at a pixel the largest around it? */
  method IsPeak(cim: array<int>, x: int, y: int) returns (isMax: bool)
    requires cim.Length == PIXELS && 1 <= x < 63 && 1 <= y < 63
    ensures isMax == PeakOf(Taps(cim[..], x, y), 9)
  {
    hide Taps;
    ghost var t := Taps(cim[..], x, y);
    TapIs(cim[..], x, y, 0, 0);
    var maxVal := cim[y * 64 + x];
    isMax := true;
    var ky := -1;
    while isMax && ky <= 1
      invariant -1 <= ky <= 2
      invariant if isMax then PeakOf(t, 3 * (ky + 1)) else !PeakOf(t, 9)
    {
      for kx := -1 to 2
        invariant isMax && PeakOf(t, 3 * (ky + 1) + kx + 1)
      {
        if ky == 0 && kx == 0 {
          continue;
        }
        TapIs(cim[..], x, y, ky, kx);
        if cim[(y + ky) * 64 + (x + kx)] > maxVal {
          isMax := false;
          assert t[3 * (ky + 1) + kx + 1] > t[4];
          break;
        }
      }
      ky := ky + 1;
    }
  }

  ghost function CornerValue(cim: seq<int>, p: int): int
    requires |cim| == PIXELS
  {
    var t := Taps(cim, p % 64, p / 64);
    if PeakOf(t, 9) && t[4] > 1 then 255 else 0
  }

  /** Corners are the peaks above the threshold. */
  method FindLocalMaxima(cim: array<int>, output: array<int>)
    requires cim.Length == output.Length == PIXELS && cim != output
    modifies output
    ensures forall p :: 0 <= p < PIXELS ==> output[p] == if Inner(p, 1) then CornerValue(cim[..], p) else old(output[p])
  {
    hide Taps, Inner, CornerValue;
    InnerRows();
    for y := 1 to 63
      invariant forall p :: 0 <= p < PIXELS ==>
        output[p] == if p < 64 * y && Inner(p, 1) then CornerValue(cim[..], p) else old(output[p])
    {
      FirstColumn(y);
      for x := 1 to 63
        invariant forall p :: 0 <= p < PIXELS ==>
          output[p] == if p < x + 64 * y && Inner(p, 1) then CornerValue(cim[..], p) else old(output[p])
      {
        var isMax := IsPeak(cim, x, y);
        NotAtEdge(x, y, 1);
        CornerOf(cim[..], x, y);
        var maxVal := cim[y * 64 + x];
        output[y * 64 + x] := if isMax && maxVal > 1 then 255 else 0;
      }
      LastColumn(y);
    }
  }

  lemma CornerOf(cim: seq<int>, x: int, y: int)
    requires |cim| == PIXELS && 1 <= x < 63 && 1 <= y < 63
    ensures CornerValue(cim, x + 64 * y) == if PeakOf(Taps(cim, x, y), 9) && cim[x + 64 * y] > 1 then 255 else 0
  {
    hide PeakOf, Taps;
    ColumnAndRow(x, y);
    TapIs(cim, x, y, 0, 0);
  }

  // ---------------------------------------------------------------- what the stages show

  lemma ShowsProducts(gray: seq<int>, g: Image, p: int)
    requires Holds(gray, g, 0) && Inner(p, 1)
    ensures var t := Taps(gray, p % 64, p / 64); var gx, gy := Clamp(Weighted(t, KERNEL_X, 9)), Clamp(Weighted(t, KERNEL_Y, 9));
      Scaled(gx, gx) == Lxx(g)(p) && Scaled(gy, gy) == Lyy(g)(p) && Scaled(gx, gy) == Lxy(g)(p)
  {
    GradientsOfTaps(gray, g, p % 64, p / 64);
  }

  lemma ShowsWindow(src: seq<int>, l: Image, p: int)
    requires Holds(src, l, 1) && Inner(p, 2)
    ensures WindowValue(src, p) == Window(l)(p)
  {
    var x, y := p % 64, p / 64;
    NotAtEdge(x, y, 2);
    assert Nearest(x) == x && Nearest(y) == y;
    hide Taps, Weighted, Inner, Nearest, Holds;
    InnerTaps(src, l, x, y, 1, p);
    SumOfOnes(Taps(src, x, y));
  }

  lemma SumOfOnes(t: seq<int>)
    requires |t| == 9
    ensures Weighted(t, ONES, 9) == t[0] + t[1] + t[2] + t[3] + t[4] + t[5] + t[6] + t[7] + t[8]
  {
    hide Weighted;
    Weighted9(t, ONES);
  }

  lemma ShowsCim(g: Image, p: int)
    ensures Short(Response(Window(Lxx(g))(p), Window(Lyy(g))(p), Window(Lxy(g))(p))) == Cim(g)(p)
  {
    hide Short, Window, Lxx, Lyy, Lxy, Response;
    WindowsAreSmall(g, p);
    ResponseRange(Window(Lxx(g))(p), Window(Lyy(g))(p), Window(Lxy(g))(p));
    ShortFits(Response(Window(Lxx(g))(p), Window(Lyy(g))(p), Window(Lxy(g))(p)));
  }

  lemma ShowsCorner(cim: seq<int>, c: Image, p: int)
    requires Holds(cim, c, 2) && Inner(p, 3)
    ensures CornerValue(cim, p) == Corners(c)(p)
  {
    var x, y := p % 64, p / 64;
    NotAtEdge(x, y, 3);
    hide Taps, Inner;
    InnerTaps(cim, c, x, y, 2, p);
    PeakOf9(Taps(cim, x, y));
  }

  lemma PeakOf9(t: seq<int>)
    requires |t| == 9
    ensures PeakOf(t, 9) ==
      (t[0] <= t[4] && t[1] <= t[4] && t[2] <= t[4] && t[3] <= t[4]
       && t[5] <= t[4] && t[6] <= t[4] && t[7] <= t[4] && t[8] <= t[4])
  {
  }

  // ---------------------------------------------------------------- the pipeline

  /** Products of gradients, by the reference stages. */
  method ExpectedProducts(a: seq<int>) returns (lxx: array<int>, lyy: array<int>, lxy: array<int>)
    requires IsPhoto(a)
    ensures fresh({lxx, lyy, lxy}) && lxx.Length == lyy.Length == lxy.Length == PIXELS
    ensures Holds(lxx[..], Lxx(Gray(a)), 1) && Holds(lyy[..], Lyy(Gray(a)), 1) && Holds(lxy[..], Lxy(Gray(a)), 1)
    ensures forall p :: 0 <= p < PIXELS ==> -507 <= lxx[p] <= 506 && -507 <= lyy[p] <= 506 && -507 <= lxy[p] <= 506
  {
    hide Inner, Weighted, Taps, Lxx, Lyy, Lxy, Gray, Clamp, Scaled, IsPhoto;
    var gray := new int[PIXELS];
    RgbToGray(a, gray);
    ghost var g := Gray(a);
    GraysInRange(a);
    var gradX, gradY := new int[PIXELS], new int[PIXELS];
    ApplySobelFilter(gray, gradX, gradY);
    ClampGradients(gradX);
    ClampGradients(gradY);
    ClampsInRange();
    lxx, lyy, lxy := new int[PIXELS], new int[PIXELS], new int[PIXELS];
    CalculateProduct(gradX, gradY, lxx, lyy, lxy);
    forall p | 0 <= p < PIXELS && Inner(p, 1) ensures lxx[p] == Lxx(g)(p) && lyy[p] == Lyy(g)(p) && lxy[p] == Lxy(g)(p) {
      ShowsProducts(gray[..], g, p);
    }
    ProductsInRange();
  }

  /** Corner responses, by the reference stages. */
  method ExpectedCim(lxx: array<int>, lyy: array<int>, lxy: array<int>, ghost g: Image) returns (cim: array<int>)
    requires lxx.Length == lyy.Length == lxy.Length == PIXELS
    requires Holds(lxx[..], Lxx(g), 1) && Holds(lyy[..], Lyy(g), 1) && Holds(lxy[..], Lxy(g), 1)
    requires forall p :: 0 <= p < PIXELS ==> -507 <= lxx[p] <= 506 && -507 <= lyy[p] <= 506 && -507 <= lxy[p] <= 506
    ensures fresh(cim) && cim.Length == PIXELS && Holds(cim[..], Cim(g), 2)
  {
    hide Inner, Lxx, Lyy, Lxy, Window, Cim, WindowValue, Short, Response;
    var xx, yy, xy := new int[PIXELS], new int[PIXELS], new int[PIXELS];
    WindowOperation(lxx, xx);
    WindowOperation(lyy, yy);
    WindowOperation(lxy, xy);
    cim := new int[PIXELS];
    CalculateCim(xx, yy, xy, cim);
    forall p | 0 <= p < PIXELS && Inner(p, 2) ensures cim[p] == Cim(g)(p) {
      ShowsWindow(lxx[..], Lxx(g), p);
      ShowsWindow(lyy[..], Lyy(g), p);
      ShowsWindow(lxy[..], Lxy(g), p);
      ShowsCim(g, p);
    }
  }

  /** The reference result. */
  method Expected(a: seq<int>) returns (output: array<int>)
    requires IsPhoto(a)
    ensures fresh(output) && output.Length == PIXELS && Holds(output[..], Harris(a), 3)
  {
    hide Inner, Taps, Lxx, Lyy, Lxy, Cim, Corners, Gray, CornerValue, IsPhoto;
    var lxx, lyy, lxy := ExpectedProducts(a);
    var cim := ExpectedCim(lxx, lyy, lxy, Gray(a));
    output := new int[PIXELS];
    FindLocalMaxima(cim, output);
    forall p | 0 <= p < PIXELS && Inner(p, 3) ensures output[p] == Harris(a)(p) {
      ShowsCorner(cim[..], Cim(Gray(a)), p);
      InnerMore(p);
    }
  }

  lemma InnerMore(p: int)
    requires Inner(p, 3)
    ensures Inner(p, 1)
  {
  }

  lemma GraysInRange(a: seq<int>)
    requires IsPhoto(a)
    ensures forall p :: 0 <= Gray(a)(p) <= 255
  {
    forall p ensures 0 <= Gray(a)(p) <= 255 { GrayRange(a, p); }
  }

  lemma ClampsInRange()
    ensures forall v :: -180 <= Clamp(v) <= 180
  {
  }

  lemma ProductsInRange()
    ensures forall x, y :: -180 <= x <= 180 && -180 <= y <= 180 ==> -507 <= Scaled(x, y) <= 506
  {
    forall x, y | -180 <= x <= 180 && -180 <= y <= 180 ensures -507 <= Scaled(x, y) <= 506 { ProductRange(x, y); }
  }

  /** The whole test: run the kernel, run the reference, compare the two away from
      the edges. The comparison always succeeds. */
  method HarrisTest(a: seq<int>, output: array<int>, orders: seq<seq<Tile>>) returns (ok: bool)
    requires IsPhoto(a) && output.Length == PIXELS && |orders| == 4 && forall i :: 0 <= i < 4 ==> AllTiles(orders[i])
    modifies output
    ensures ok
  {
    hide Harris, IsPhoto, AllTiles, Inner;
    var expected := Expected(a);
    Kernel(a, output, orders);
    assert forall p :: 0 <= p < PIXELS && Inner(p, 3) ==> output[p] == expected[..][p];
    for i := 3 to 61
      invariant forall p :: 0 <= p < PIXELS && Inner(p, 3) ==> output[p] == expected[p]
    {
      for j := 3 to 61
        invariant forall p :: 0 <= p < PIXELS && Inner(p, 3) ==> output[p] == expected[p]
      {
        var index := i + j * 64;
        NotAtEdge(i, j, 3);
        if expected[index] != output[index] {
          return false;
        }
      }
    }
    return true;
  }
}
