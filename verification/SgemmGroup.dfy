// The loop over output blocks, on every tile of a group.
module SgemmGroup {
  import opened Bits
  import opened Matrices
  import opened SgemmKernel

  /** The two inputs, with their sizes and strides; the result's stride; and the
      block size. */
  datatype Problem = Problem(
    w: nat, mat1: seq<int>, stride1: nat, mat2: seq<int>, stride2: nat, r1: nat, c1: nat, c2: nat, stride: nat)

  // Blocks are whole sub-blocks, divide every dimension, and rows do not overlap.
  ghost predicate Valid(p: Problem) {
    && p.w > 0 && p.w % 4 == 0 && Aligned(p.r1, p.w) && Aligned(p.c1, p.w) && Aligned(p.c2, p.w)
    && p.c1 <= p.stride1 && p.r1 * p.stride1 <= |p.mat1| && p.c2 <= p.stride2 && p.c1 * p.stride2 <= |p.mat2|
    && p.c2 <= p.stride
  }

  ghost function A(p: Problem): Matrix { View(p.mat1, p.stride1) }

  ghost function B(p: Problem): Matrix { View(p.mat2, p.stride2) }

  /** The number of blocks along a dimension. */
  function Blocks(n: nat, w: nat): nat
    requires w > 0
  {
    Quot(n, w)
  }

  lemma BlocksAreExact(n: nat, w: nat)
    requires w > 0 && Aligned(n, w)
    ensures n == Blocks(n, w) * w
  {
    AlignedIsMultiple(n, w);
    QuotRem(n, w);
  }

  // A block of a matrix lies in its memory.
  lemma BlockFits(n: nat, stride: nat, rows: nat, cols: nat, w: nat, br: nat, bc: nat)
    requires w > 0 && Aligned(rows, w) && Aligned(cols, w) && cols <= stride && rows * stride <= n
    requires br < Blocks(rows, w) && bc < Blocks(cols, w)
    ensures BlockInside(n, stride, w, br, bc) && ColumnsFit(stride, w, bc)
  {
    hide Idx, Aligned, Blocks, At;
    BlocksAreExact(rows, w);
    BlocksAreExact(cols, w);
    forall i, j | 0 <= i < w && 0 <= j < w ensures 0 <= At(stride, w, br, bc, i, j) < n {
      ElementFits(n, stride, rows, Blocks(rows, w), Blocks(cols, w), w, br, bc, i, j);
    }
    forall j | 0 <= j < w ensures 0 <= Idx(w, bc, j) < stride {
      ElementFits(n, stride, rows, Blocks(rows, w), Blocks(cols, w), w, br, bc, 0, j);
    }
  }

  lemma ElementFits(n: nat, stride: nat, rows: nat, rowBlocks: nat, colBlocks: nat, w: nat, br: nat, bc: nat, i: int, j: int)
    requires rows == rowBlocks * w && colBlocks * w <= stride && rows * stride <= n
    requires br < rowBlocks && bc < colBlocks && 0 <= i < w && 0 <= j < w
    ensures 0 <= Idx(w, bc, j) < stride && 0 <= At(stride, w, br, bc, i, j) < n
  {
    hide Idx;
    IdxBounds(w, rowBlocks, br, i);
    IdxBounds(w, colBlocks, bc, j);
    IdxBounds(stride, rows, Idx(w, br, i), Idx(w, bc, j));
  }

  // ---------------------------------------------------------------- one output block

  /** Block br, bc of the product, with the first n terms of each element. */
  ghost function Terms(p: Problem, br: int, bc: int, n: nat): Matrix {
    (i, j) => Dot(A(p), B(p), Idx(p.w, br, i), Idx(p.w, bc, j), n)
  }

  lemma TermsStart(p: Problem, br: int, bc: int, s: seq<int>)
    requires IsBlock(s, p.w, false, Zero())
    ensures IsBlock(s, p.w, false, Terms(p, br, bc, 0))
  {
    hide Stored;
  }

  lemma TermsStep(p: Problem, br: int, bc: int, k: nat, s: seq<int>)
    requires k * p.w >= 0 && k * p.w + p.w >= 0
    requires IsBlock(s, p.w, false, Plus(Terms(p, br, bc, k * p.w), Sub(A(p), p.w, br, k), Sub(B(p), p.w, k, bc), p.w))
    ensures IsBlock(s, p.w, false, Terms(p, br, bc, k * p.w + p.w))
  {
    hide Stored, A, B, Idx, Sub;
    forall i, j | 0 <= i < p.w && 0 <= j < p.w
      ensures Terms(p, br, bc, k * p.w + p.w)(i, j)
        == Plus(Terms(p, br, bc, k * p.w), Sub(A(p), p.w, br, k), Sub(B(p), p.w, k, bc), p.w)(i, j)
    {
      DotOfBlocks(A(p), B(p), p.w, br, bc, k, i, j, p.w);
    }
  }

  lemma NextMultiple(k: nat, w: nat)
    ensures (k + 1) * w == k * w + w && k * w >= 0
  {
    ProductSign(k, w);
  }

  /** The three scratchpad blocks of a tile. */
  datatype Scratch = Scratch(row: array<int>, col: array<int>, out: array<int>)

  ghost predicate Good(s: Scratch, w: nat) {
    s.row != s.col && s.row != s.out && s.col != s.out && s.row.Length == s.col.Length == s.out.Length == w * w
  }

  /** Compute and store one output block. The scratchpad block starts cleared and
      is left cleared. */
  method OutputBlock(p: Problem, transposed: bool, s: Scratch, result: array<int>, br: nat, bc: nat)
    requires Valid(p) && Good(s, p.w) && result != s.row && result != s.col && result != s.out
    requires p.r1 * p.stride <= result.Length && br < Blocks(p.r1, p.w) && bc < Blocks(p.c2, p.w)
    requires IsBlock(s.out[..], p.w, false, Zero())
    modifies s.row, s.col, s.out, result
    ensures IsBlock(s.out[..], p.w, false, Zero())
    ensures BlockPart(old(result[..]), result[..], p.stride, p.w, br, bc, Terms(p, br, bc, p.c1), p.w, 0)
  {
    hide IsBlock, Plus, Terms, Sub, Zero, BlockInside, ColumnsFit, Blocks, BlockPart, Aligned;
    var n := Blocks(p.c1, p.w);
    TermsStart(p, br, bc, s.out[..]);
    for k := 0 to n
      invariant k * p.w >= 0 && IsBlock(s.out[..], p.w, false, Terms(p, br, bc, k * p.w)) && result[..] == old(result[..])
    {
      BlockFits(|p.mat1|, p.stride1, p.r1, p.c1, p.w, br, k);
      LoadBlock(s.row, p.mat1, p.stride1, p.w, transposed, br, k);
      BlockFits(|p.mat2|, p.stride2, p.c1, p.c2, p.w, k, bc);
      LoadBlock(s.col, p.mat2, p.stride2, p.w, false, k, bc);
      AccumBlock(s.out, s.row, s.col, p.w, transposed, Terms(p, br, bc, k * p.w), Sub(A(p), p.w, br, k), Sub(B(p), p.w, k, bc));
      NextMultiple(k, p.w);
      TermsStep(p, br, bc, k, s.out[..]);
    }
    BlocksAreExact(p.c1, p.w);
    BlockFits(result.Length, p.stride, p.r1, p.c2, p.w, br, bc);
    StoreBlockAndReset(s.out, result, p.stride, p.w, br, bc, Terms(p, br, bc, p.c1));
  }

  // ---------------------------------------------------------------- strided loops

  // Between one stop of a strided loop and the next there is no other.
  lemma {:induction false} NextStop(a: nat, b: nat, m: nat)
    requires m > 0 && b <= a < b + m
    ensures Rem(a, m) == Rem(b, m) <==> a == b
    decreases a
  {
    hide Rem;
    QuotRemStep(a, m);
    QuotRemStep(b, m);
    if b >= m {
      NextStop(a - m, b - m, m);
    } else if a >= m {
      QuotRemStep(a - m, m);
    }
  }

  // Block br, bc of the result holds the answer.
  ghost predicate BlockHolds(p: Problem, s: seq<int>, br: int, bc: int) {
    forall i, j :: 0 <= i < p.w && 0 <= j < p.w ==>
      0 <= At(p.stride, p.w, br, bc, i, j) < |s| && s[At(p.stride, p.w, br, bc, i, j)] == Terms(p, br, bc, p.c1)(i, j)
  }

  ghost predicate IsBlockOf(p: Problem, br: int, bc: int)
    requires p.w > 0
  {
    0 <= br < Blocks(p.r1, p.w) && 0 <= bc < Blocks(p.c2, p.w)
  }

  // Exactly these blocks were computed: they hold the answer, and what is in none
  // of them is as it was.
  ghost predicate Computed(p: Problem, s0: seq<int>, s: seq<int>, done: set<(nat, nat)>)
    requires p.w > 0
  {
    && |s| == |s0|
    && (forall b :: b in done ==> IsBlockOf(p, b.0, b.1) && BlockHolds(p, s, b.0, b.1))
    && (forall q :: 0 <= q < |s| && (forall b :: b in done ==> !InBlock(p.stride, p.w, b.0, b.1, q)) ==> s[q] == s0[q])
  }

  lemma ComputedStep(p: Problem, s0: seq<int>, s1: seq<int>, s2: seq<int>, done: set<(nat, nat)>, br: nat, bc: nat)
    requires p.w > 0 && Valid(p) && p.r1 * p.stride <= |s0| && IsBlockOf(p, br, bc) && Computed(p, s0, s1, done)
    requires BlockPart(s1, s2, p.stride, p.w, br, bc, Terms(p, br, bc, p.c1), p.w, 0)
    ensures Computed(p, s0, s2, done + {(br, bc)})
  {
    hide At, Terms, Valid, Blocks, BlockHolds;
    ThisBlockHolds(p, s1, s2, br, bc);
    forall b | b in done + {(br, bc)} ensures IsBlockOf(p, b.0, b.1) && BlockHolds(p, s2, b.0, b.1) {
      if b != (br, bc) {
        OtherBlockKept(p, s1, s2, br, bc, b.0, b.1);
      }
    }
    forall q | 0 <= q < |s2| && (forall b :: b in done + {(br, bc)} ==> !InBlock(p.stride, p.w, b.0, b.1, q))
      ensures s2[q] == s0[q]
    {
      assert (br, bc) in done + {(br, bc)};
      assert forall b :: b in done ==> b in done + {(br, bc)};
    }
  }

  lemma ThisBlockHolds(p: Problem, s1: seq<int>, s2: seq<int>, br: nat, bc: nat)
    requires BlockPart(s1, s2, p.stride, p.w, br, bc, Terms(p, br, bc, p.c1), p.w, 0)
    ensures BlockHolds(p, s2, br, bc)
  {
    hide At, Terms, InBlock;
  }

  lemma OtherBlockKept(p: Problem, s1: seq<int>, s2: seq<int>, br: nat, bc: nat, br': nat, bc': nat)
    requires p.w > 0 && Valid(p) && p.r1 * p.stride <= |s1|
    requires IsBlockOf(p, br, bc) && IsBlockOf(p, br', bc') && (br, bc) != (br', bc')
    requires BlockHolds(p, s1, br', bc') && BlockPart(s1, s2, p.stride, p.w, br, bc, Terms(p, br, bc, p.c1), p.w, 0)
    ensures BlockHolds(p, s2, br', bc')
  {
    hide At, Terms, IsBlockOf, Valid, InBlock;
    forall i, j | 0 <= i < p.w && 0 <= j < p.w
      ensures !InBlock(p.stride, p.w, br, bc, At(p.stride, p.w, br', bc', i, j))
    {
      BlocksApart(p, |s1|, (br, bc), (br', bc'), i, j);
    }
  }

  // Stops of a strided loop from t: none before t, and none between neighbours.
  lemma FirstStop(t: nat, m: nat)
    requires t < m
    ensures Rem(t, m) == t && forall b: nat :: b < t ==> Rem(b, m) != t
  {
  }

  lemma Stops(a: nat, m: nat)
    requires m > 0
    ensures Rem(a + m, m) == Rem(a, m) && forall b: nat :: a <= b < a + m ==> (Rem(b, m) == Rem(a, m) <==> b == a)
  {
    hide Rem;
    QuotRemStep(a + m, m);
    forall b: nat | a <= b < a + m ensures Rem(b, m) == Rem(a, m) <==> b == a { NextStop(b, a, m); }
  }

  // The blocks of a tile's loops before block row y, block column x.
  ghost predicate IsMine(p: Problem, mine: set<(nat, nat)>, ty: nat, tx: nat, dimY: nat, dimX: nat, y: nat, x: nat)
    requires p.w > 0 && dimY > 0 && dimX > 0
  {
    forall br: nat, bc: nat :: (br, bc) in mine <==>
      IsBlockOf(p, br, bc) && Rem(br, dimY) == ty && Rem(bc, dimX) == tx && (br < y || (br == y && bc < x))
  }

  lemma MineColumn(p: Problem, mine: set<(nat, nat)>, ty: nat, tx: nat, dimY: nat, dimX: nat, y: nat, x: nat)
    requires p.w > 0 && dimY > 0 && dimX > 0 && IsMine(p, mine, ty, tx, dimY, dimX, y, x)
    requires IsBlockOf(p, y, x) && Rem(y, dimY) == ty && Rem(x, dimX) == tx
    ensures (y, x) !in mine && IsMine(p, mine + {(y, x)}, ty, tx, dimY, dimX, y, x + dimX)
  {
    hide Rem, IsBlockOf;
    Stops(x, dimX);
  }

  lemma MineRow(p: Problem, mine: set<(nat, nat)>, ty: nat, tx: nat, dimY: nat, dimX: nat, y: nat, x: nat)
    requires p.w > 0 && dimY > 0 && tx < dimX && IsMine(p, mine, ty, tx, dimY, dimX, y, x)
    requires Rem(y, dimY) == ty && x >= Blocks(p.c2, p.w)
    ensures IsMine(p, mine, ty, tx, dimY, dimX, y + dimY, tx)
  {
    hide Rem, Blocks;
    Stops(y, dimY);
    FirstStop(tx, dimX);
  }

  lemma NoBlocks(p: Problem, ty: nat, tx: nat, dimY: nat, dimX: nat, s: seq<int>)
    requires p.w > 0 && ty < dimY && tx < dimX
    ensures IsMine(p, {}, ty, tx, dimY, dimX, ty, tx) && Computed(p, s, s, {})
  {
    hide Rem;
    FirstStop(ty, dimY);
    FirstStop(tx, dimX);
  }

  method ClearBlock(out: array<int>, w: nat)
    requires out.Length == w * w
    modifies out
    ensures IsBlock(out[..], w, false, Zero())
  {
    hide Mixed, IsBlock, Stored;
    ghost var d := Contents(out[..], w, false);
    ContentsAreBlock(out[..], w, false);
    MixedEnds(out[..], w, false, Zero(), d);
    for i := 0 to w
      invariant Mixed(out[..], w, false, Zero(), d, i, 0)
    {
      for j := 0 to w
        invariant Mixed(out[..], w, false, Zero(), d, i, j)
      {
        RowMajor(w, i, j);
        MixedStep(out[..], w, false, Zero(), d, i, j);
        ghost var before := out[..];
        out[i * w + j] := 0;
        assert out[..] == before[Stored(w, false, i, j) := Zero()(i, j)];
      }
      MixedRow(out[..], w, false, Zero(), d, i);
    }
    MixedEnds(out[..], w, false, Zero(), d);
  }

  /** One tile: every dimY-th block row from its own, every dimX-th block column
      from its own, each block once. */
  method Tile(p: Problem, transposed: bool, result: array<int>, ty: nat, tx: nat, dimY: nat, dimX: nat)
    returns (ghost mine: set<(nat, nat)>)
    requires p.w > 0 && Valid(p) && p.r1 * p.stride <= result.Length && ty < dimY && tx < dimX
    modifies result
    ensures Computed(p, old(result[..]), result[..], mine)
    ensures forall br: nat, bc: nat :: (br, bc) in mine <==> IsBlockOf(p, br, bc) && Rem(br, dimY) == ty && Rem(bc, dimX) == tx
  {
    hide Valid, Computed, Rem, Blocks, IsBlock, BlockPart, Terms, IsMine;
    ghost var s0 := result[..];
    var row, col, out := new int[p.w * p.w], new int[p.w * p.w], new int[p.w * p.w];
    var s := Scratch(row, col, out);
    ClearBlock(s.out, p.w);
    mine := {};
    NoBlocks(p, ty, tx, dimY, dimX, s0);
    FirstStop(ty, dimY);
    FirstStop(tx, dimX);
    var byI := ty;
    while byI < Blocks(p.r1, p.w)
      invariant Rem(byI, dimY) == ty && IsMine(p, mine, ty, tx, dimY, dimX, byI, tx)
      invariant Computed(p, s0, result[..], mine) && result.Length == |s0|
      invariant IsBlock(s.out[..], p.w, false, Zero())
    {
      var bxI := tx;
      while bxI < Blocks(p.c2, p.w)
        invariant Rem(bxI, dimX) == tx && IsMine(p, mine, ty, tx, dimY, dimX, byI, bxI)
        invariant Computed(p, s0, result[..], mine) && result.Length == |s0|
        invariant IsBlock(s.out[..], p.w, false, Zero())
      {
        ghost var before := result[..];
        OutputBlock(p, transposed, s, result, byI, bxI);
        ComputedStep(p, s0, before, result[..], mine, byI, bxI);
        MineColumn(p, mine, ty, tx, dimY, dimX, byI, bxI);
        QuotRemStep(bxI + dimX, dimX);
        mine := mine + {(byI, bxI)};
        bxI := bxI + dimX;
      }
      MineRow(p, mine, ty, tx, dimY, dimX, byI, bxI);
      QuotRemStep(byI + dimY, dimY);
      byI := byI + dimY;
    }
    AllMine(p, mine, ty, tx, dimY, dimX, byI);
  }

  lemma AllMine(p: Problem, mine: set<(nat, nat)>, ty: nat, tx: nat, dimY: nat, dimX: nat, y: nat)
    requires p.w > 0 && dimY > 0 && dimX > 0 && IsMine(p, mine, ty, tx, dimY, dimX, y, tx) && y >= Blocks(p.r1, p.w)
    ensures forall br: nat, bc: nat :: (br, bc) in mine <==> IsBlockOf(p, br, bc) && Rem(br, dimY) == ty && Rem(bc, dimX) == tx
  {
    hide Rem, Blocks;
  }

  // ---------------------------------------------------------------- the group

  lemma ComputedBoth(p: Problem, s0: seq<int>, s1: seq<int>, s2: seq<int>, one: set<(nat, nat)>, two: set<(nat, nat)>)
    requires p.w > 0 && Valid(p) && p.r1 * p.stride <= |s0| && Computed(p, s0, s1, one) && Computed(p, s1, s2, two)
    ensures Computed(p, s0, s2, one + two)
  {
    hide Valid, InBlock, Terms, At;
    forall b | b in one + two ensures IsBlockOf(p, b.0, b.1) && BlockHolds(p, s2, b.0, b.1) {
      if b !in two {
        KeptByOthers(p, s1, s2, two, b);
      }
    }
    forall q | 0 <= q < |s2| && (forall b :: b in one + two ==> !InBlock(p.stride, p.w, b.0, b.1, q)) ensures s2[q] == s0[q] {
      assert forall b :: b in one ==> b in one + two;
      assert forall b :: b in two ==> b in one + two;
    }
  }

  lemma KeptByOthers(p: Problem, s1: seq<int>, s2: seq<int>, two: set<(nat, nat)>, b: (nat, nat))
    requires p.w > 0 && Valid(p) && p.r1 * p.stride <= |s1| && Computed(p, s1, s2, two) && b !in two
    requires IsBlockOf(p, b.0, b.1) && BlockHolds(p, s1, b.0, b.1)
    ensures BlockHolds(p, s2, b.0, b.1)
  {
    hide Valid, InBlock, Terms, At, Blocks;
    forall i, j | 0 <= i < p.w && 0 <= j < p.w
      ensures s2[At(p.stride, p.w, b.0, b.1, i, j)] == s1[At(p.stride, p.w, b.0, b.1, i, j)]
    {
      forall c | c in two ensures !InBlock(p.stride, p.w, c.0, c.1, At(p.stride, p.w, b.0, b.1, i, j)) {
        BlocksApart(p, |s1|, c, b, i, j);
      }
    }
  }

  lemma BlocksApart(p: Problem, n: nat, c: (nat, nat), b: (nat, nat), i: int, j: int)
    requires p.w > 0 && Valid(p) && p.r1 * p.stride <= n && IsBlockOf(p, c.0, c.1) && IsBlockOf(p, b.0, b.1) && c != b
    requires 0 <= i < p.w && 0 <= j < p.w
    ensures !InBlock(p.stride, p.w, c.0, c.1, At(p.stride, p.w, b.0, b.1, i, j))
  {
    hide At, Blocks, ColumnsFit, Aligned;
    BlockFits(n, p.stride, p.r1, p.c2, p.w, c.0, c.1);
    BlockFits(n, p.stride, p.r1, p.c2, p.w, b.0, b.1);
    forall k, l | 0 <= k < p.w && 0 <= l < p.w
      ensures At(p.stride, p.w, c.0, c.1, k, l) != At(p.stride, p.w, b.0, b.1, i, j)
    {
      if At(p.stride, p.w, c.0, c.1, k, l) == At(p.stride, p.w, b.0, b.1, i, j) {
        AtInjective(p.stride, p.w, c.0, c.1, k, l, b.0, b.1, i, j);
      }
    }
  }

  // Row y, column x lie in a block.
  lemma BlockOf(p: Problem, y: nat, x: nat) returns (br: nat, i: nat, bc: nat, j: nat)
    requires p.w > 0 && Valid(p) && y < p.r1 && x < p.c2
    ensures IsBlockOf(p, br, bc) && i < p.w && j < p.w && y == Idx(p.w, br, i) && x == Idx(p.w, bc, j)
  {
    hide Quot, Rem, Aligned;
    br, i, bc, j := Quot(y, p.w), Rem(y, p.w), Quot(x, p.w), Rem(x, p.w);
    QuotRem(y, p.w);
    QuotRem(x, p.w);
    BlocksAreExact(p.r1, p.w);
    BlocksAreExact(p.c2, p.w);
    FactorsOrdered(Blocks(p.r1, p.w), br + 1, p.w);
    FactorsOrdered(Blocks(p.c2, p.w), bc + 1, p.w);
  }

  ghost predicate IsElement(p: Problem, q: int) { exists y: nat, x: nat :: y < p.r1 && x < p.c2 && IsAt(p, q, y, x) }

  // Row y and column x of the result: rows are a stride apart.
  ghost predicate IsAt(p: Problem, q: int, y: nat, x: nat) { q == y * p.stride + x }

  ghost function Element(s: seq<int>, i: int): int { if 0 <= i < |s| then s[i] else 0 }

  /** The first n products of row y of the first matrix with column x of the second. */
  ghost function Product(p: Problem, y: nat, x: nat, n: nat): int {
    if n == 0 then 0
    else Product(p, y, x, n - 1) + Element(p.mat1, y * p.stride1 + (n - 1)) * Element(p.mat2, (n - 1) * p.stride2 + x)
  }

  ghost predicate HoldsProduct(p: Problem, s: seq<int>, y: nat, x: nat) {
    0 <= y * p.stride + x < |s| && s[y * p.stride + x] == Product(p, y, x, p.c1)
  }

  lemma {:induction false} DotIsProduct(p: Problem, y: nat, x: nat, n: nat)
    ensures Dot(A(p), B(p), y, x, n) == Product(p, y, x, n)
  {
    if n > 0 { DotIsProduct(p, y, x, n - 1); }
  }

  lemma IdxIs(w: int, y: int, x: int)
    ensures Idx(w, y, x) == y * w + x
  {
  }

  // Elements of a block are elements of the matrix.
  lemma InsideMatrix(p: Problem, br: nat, bc: nat, q: int)
    requires p.w > 0 && Valid(p) && IsBlockOf(p, br, bc) && InBlock(p.stride, p.w, br, bc, q)
    ensures IsElement(p, q)
  {
    hide Idx, Blocks, Aligned;
    var i, j :| 0 <= i < p.w && 0 <= j < p.w && At(p.stride, p.w, br, bc, i, j) == q;
    BlocksAreExact(p.r1, p.w);
    BlocksAreExact(p.c2, p.w);
    IdxBounds(p.w, Blocks(p.r1, p.w), br, i);
    IdxBounds(p.w, Blocks(p.c2, p.w), bc, j);
    var y: nat, x: nat := Idx(p.w, br, i), Idx(p.w, bc, j);
    IdxIs(p.stride, y, x);
    assert IsAt(p, q, y, x);
  }

  /** The kernel on a group of tiles, in any order: the result is the product of
      the two matrices, and the rest of its memory is as it was. */
  method Kernel(p: Problem, transposed: bool, result: array<int>, dimY: nat, dimX: nat, order: seq<(nat, nat)>)
    requires p.w > 0 && Valid(p) && p.r1 * p.stride <= result.Length && dimY > 0 && dimX > 0
    requires forall ty: nat, tx: nat :: (ty, tx) in order <==> ty < dimY && tx < dimX
    modifies result
    ensures forall y: nat, x: nat :: y < p.r1 && x < p.c2 ==> HoldsProduct(p, result[..], y, x)
    ensures forall q :: 0 <= q < result.Length && !IsElement(p, q) ==> result[q] == old(result[q])
  {
    hide Valid, Computed, Rem, Blocks, Idx, Dot, A, B, InBlock, HoldsProduct, IsElement;
    ghost var s0 := result[..];
    ghost var done: set<(nat, nat)> := {};
    NoBlocks(p, 0, 0, dimY, dimX, s0);
    for k := 0 to |order|
      invariant Computed(p, s0, result[..], done)
      invariant forall br: nat, bc: nat ::
        IsBlockOf(p, br, bc) && (Rem(br, dimY), Rem(bc, dimX)) in order[..k] ==> (br, bc) in done
    {
      ghost var before := result[..];
      assert (order[k].0, order[k].1) in order;
      ghost var mine := Tile(p, transposed, result, order[k].0, order[k].1, dimY, dimX);
      ComputedBoth(p, s0, before, result[..], done, mine);
      done := done + mine;
      assert order[..k + 1] == order[..k] + [order[k]];
    }
    assert order[..|order|] == order;
    ProductIsComputed(p, s0, result[..], done);
  }

  lemma ProductIsComputed(p: Problem, s0: seq<int>, s: seq<int>, done: set<(nat, nat)>)
    requires p.w > 0 && Valid(p) && Computed(p, s0, s, done)
    requires forall br: nat, bc: nat :: IsBlockOf(p, br, bc) ==> (br, bc) in done
    ensures forall y: nat, x: nat :: y < p.r1 && x < p.c2 ==> HoldsProduct(p, s, y, x)
    ensures forall q :: 0 <= q < |s| && !IsElement(p, q) ==> s[q] == s0[q]
  {
    hide Valid, Rem, Blocks, Idx, Dot, A, B, InBlock, IsElement;
    forall y: nat, x: nat | y < p.r1 && x < p.c2
      ensures HoldsProduct(p, s, y, x)
    {
      DotIsProduct(p, y, x, p.c1);
      assert Idx(p.stride, y, x) == y * p.stride + x by { IdxIs(p.stride, y, x); }
      var br, i, bc, j := BlockOf(p, y, x);
      assert (br, bc) in done && BlockHolds(p, s, br, bc);
      assert At(p.stride, p.w, br, bc, i, j) == Idx(p.stride, y, x);
    }
    forall q | 0 <= q < |s| && !IsElement(p, q) ensures s[q] == s0[q] {
      forall b | b in done ensures !InBlock(p.stride, p.w, b.0, b.1, q) {
        if InBlock(p.stride, p.w, b.0, b.1, q) { InsideMatrix(p, b.0, b.1, q); }
      }
    }
  }
}
