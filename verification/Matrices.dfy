// Blocked matrix multiplication: each tile strides over output blocks, and for each
// one accumulates products of input blocks held in its scratchpad. Elements are
// exact numbers.
module Matrices {
  import opened Bits

  type Matrix = (int, int) -> int

  /** The index of row y, column x in rows of w elements. */
  function Idx(w: int, y: int, x: int): int { y * w + x }

  lemma IdxBounds(w: nat, h: nat, y: int, x: int)
    requires 0 <= y < h && 0 <= x < w
    ensures 0 <= Idx(w, y, x) < h * w
  {
    ProductSign(y, w);
    ProductSign(h - 1 - y, w);
    assert (h - 1 - y) * w == h * w - w - y * w;
  }

  lemma IdxInjective(w: nat, y: int, x: int, y': int, x': int)
    requires 0 <= x < w && 0 <= x' < w && Idx(w, y, x) == Idx(w, y', x')
    ensures y == y' && x == x'
  {
    assert (y - y') * w == y * w - y' * w;
    NegativeProduct(y - y', w);
    NegativeProduct(y' - y, w);
    assert (y' - y) * w == -((y - y') * w);
  }

  // ---------------------------------------------------------------- products

  /** The first n terms of an element of the product. */
  ghost function Dot(a: Matrix, b: Matrix, y: int, x: int, n: nat): int {
    if n == 0 then 0 else Dot(a, b, y, x, n - 1) + a(y, n - 1) * b(n - 1, x)
  }

  /** Block br, bc of a matrix. */
  ghost function Sub(m: Matrix, w: int, br: int, bc: int): Matrix { (i, j) => m(Idx(w, br, i), Idx(w, bc, j)) }

  // One more pair of blocks adds its own product.
  lemma {:induction false} DotOfBlocks(a: Matrix, b: Matrix, w: nat, br: int, bc: int, bk: nat, i: int, j: int, n: nat)
    requires bk * w >= 0
    ensures Dot(a, b, Idx(w, br, i), Idx(w, bc, j), bk * w + n)
      == Dot(a, b, Idx(w, br, i), Idx(w, bc, j), bk * w) + Dot(Sub(a, w, br, bk), Sub(b, w, bk, bc), i, j, n)
  {
    if n > 0 {
      DotOfBlocks(a, b, w, br, bc, bk, i, j, n - 1);
      assert Idx(w, bk, n - 1) == bk * w + n - 1;
    }
  }

  // ---------------------------------------------------------------- flat blocks

  /** Where a block of w by w elements keeps row i, column j. */
  function Stored(w: int, transposed: bool, i: int, j: int): int { if transposed then Idx(w, j, i) else Idx(w, i, j) }

  lemma StoredBounds(w: nat, t: bool, i: int, j: int)
    requires 0 <= i < w && 0 <= j < w
    ensures 0 <= Stored(w, t, i, j) < w * w
  {
    hide Idx;
    if t { IdxBounds(w, w, j, i); } else { IdxBounds(w, w, i, j); }
  }

  lemma StoredInjective(w: nat, t: bool, i: int, j: int, i': int, j': int)
    requires 0 <= i < w && 0 <= j < w && 0 <= i' < w && 0 <= j' < w && Stored(w, t, i, j) == Stored(w, t, i', j')
    ensures i == i' && j == j'
  {
    hide Idx;
    if t { IdxInjective(w, j, i, j', i'); } else { IdxInjective(w, i, j, i', j'); }
  }

  // Row-major order.
  predicate Before(i: int, j: int, i': int, j': int) { i < i' || (i == i' && j < j') }

  // The elements of a block up to row y, column x are those of f, the others of d.
  ghost predicate Mixed(s: seq<int>, w: nat, t: bool, f: Matrix, d: Matrix, y: int, x: int) {
    && |s| == w * w
    && forall i, j :: 0 <= i < w && 0 <= j < w ==>
        0 <= Stored(w, t, i, j) < |s| && s[Stored(w, t, i, j)] == if Before(i, j, y, x) then f(i, j) else d(i, j)
  }

  ghost predicate IsBlock(s: seq<int>, w: nat, t: bool, f: Matrix) {
    && |s| == w * w
    && forall i, j :: 0 <= i < w && 0 <= j < w ==> 0 <= Stored(w, t, i, j) < |s| && s[Stored(w, t, i, j)] == f(i, j)
  }

  lemma MixedStep(s: seq<int>, w: nat, t: bool, f: Matrix, d: Matrix, y: int, x: int)
    requires Mixed(s, w, t, f, d, y, x) && 0 <= y < w && 0 <= x < w
    ensures 0 <= Stored(w, t, y, x) < |s| && Mixed(s[Stored(w, t, y, x) := f(y, x)], w, t, f, d, y, x + 1)
  {
    hide Stored;
    var s' := s[Stored(w, t, y, x) := f(y, x)];
    forall i, j | 0 <= i < w && 0 <= j < w
      ensures s'[Stored(w, t, i, j)] == if Before(i, j, y, x + 1) then f(i, j) else d(i, j)
    {
      if Stored(w, t, i, j) == Stored(w, t, y, x) {
        StoredInjective(w, t, i, j, y, x);
      }
    }
  }

  // The end of one row is the start of the next; before the first row nothing is
  // done, and after the last one everything.
  lemma MixedRow(s: seq<int>, w: nat, t: bool, f: Matrix, d: Matrix, y: int)
    requires Mixed(s, w, t, f, d, y, w)
    ensures Mixed(s, w, t, f, d, y + 1, 0)
  {
    hide Stored;
  }

  lemma MixedEnds(s: seq<int>, w: nat, t: bool, f: Matrix, d: Matrix)
    ensures IsBlock(s, w, t, d) ==> Mixed(s, w, t, f, d, 0, 0)
    ensures Mixed(s, w, t, f, d, w, 0) ==> IsBlock(s, w, t, f)
  {
    hide Stored;
  }

  // Any contents are a block of some matrix.
  ghost function Contents(s: seq<int>, w: nat, t: bool): Matrix {
    (i, j) => if 0 <= Stored(w, t, i, j) < |s| then s[Stored(w, t, i, j)] else 0
  }

  lemma ContentsAreBlock(s: seq<int>, w: nat, t: bool)
    requires |s| == w * w
    ensures IsBlock(s, w, t, Contents(s, w, t))
  {
    hide Stored;
    forall i, j | 0 <= i < w && 0 <= j < w ensures 0 <= Stored(w, t, i, j) < |s| { StoredBounds(w, t, i, j); }
  }
}
