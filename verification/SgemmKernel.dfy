// The blocked kernel.
module SgemmKernel {
  import opened Matrices

  /** A matrix in flat memory, rows a stride apart, columns next to each other. */
  function View(src: seq<int>, stride: int): Matrix {
    (y, x) => if 0 <= Idx(stride, y, x) < |src| then src[Idx(stride, y, x)] else 0
  }

  // Where block row, block column, row and column lead.
  function At(stride: int, w: int, br: int, bc: int, i: int, j: int): int {
    Idx(stride, Idx(w, br, i), Idx(w, bc, j))
  }

  lemma Address(stride: int, w: int, br: int, bc: int, i: int, j: int)
    ensures br * w * stride + bc * w * 1 + (i * stride + j) == At(stride, w, br, bc, i, j)
  {
    assert (br * w + i) * stride == br * w * stride + i * stride;
  }

  ghost predicate BlockInside(n: int, stride: int, w: int, br: int, bc: int) {
    forall i, j :: 0 <= i < w && 0 <= j < w ==> 0 <= At(stride, w, br, bc, i, j) < n
  }

  // ---------------------------------------------------------------- load

  /** Copy a block of a matrix into the scratchpad, transposed or not. */
  method LoadBlock(dest: array<int>, src: seq<int>, stride: nat, w: nat, transposed: bool, br: nat, bc: nat)
    requires dest.Length == w * w && BlockInside(|src|, stride, w, br, bc)
    modifies dest
    ensures IsBlock(dest[..], w, transposed, Sub(View(src, stride), w, br, bc))
  {
    hide Mixed, IsBlock, Idx, At;
    var base := br * w * stride + bc * w * 1;
    ghost var f, d := Sub(View(src, stride), w, br, bc), Contents(dest[..], w, transposed);
    ContentsAreBlock(dest[..], w, transposed);
    MixedEnds(dest[..], w, transposed, f, d);
    for i := 0 to w
      invariant Mixed(dest[..], w, transposed, f, d, i, 0)
    {
      for j := 0 to w
        invariant Mixed(dest[..], w, transposed, f, d, i, j)
      {
        Address(stride, w, br, bc, i, j);
        ViewAt(src, stride, w, br, bc, i, j);
        MixedStep(dest[..], w, transposed, f, d, i, j);
        ghost var before := dest[..];
        if !transposed {
          RowMajor(w, i, j);
          dest[w * i + j] := src[base + (i * stride + j)];
        } else {
          ColumnMajor(w, i, j);
          dest[i + w * j] := src[base + (i * stride + j)];
        }
        assert dest[..] == before[Stored(w, transposed, i, j) := f(i, j)];
      }
      MixedRow(dest[..], w, transposed, f, d, i);
    }
    MixedEnds(dest[..], w, transposed, f, d);
  }

  lemma RowMajor(w: int, i: int, j: int)
    ensures w * i + j == i * w + j == Stored(w, false, i, j)
  {
  }

  lemma ColumnMajor(w: int, i: int, j: int)
    ensures i + w * j == i + j * w == Stored(w, true, i, j)
  {
  }

  lemma ViewAt(src: seq<int>, stride: int, w: int, br: int, bc: int, i: int, j: int)
    requires BlockInside(|src|, stride, w, br, bc) && 0 <= i < w && 0 <= j < w
    ensures 0 <= At(stride, w, br, bc, i, j) < |src|
    ensures src[At(stride, w, br, bc, i, j)] == Sub(View(src, stride), w, br, bc)(i, j)
  {
    hide Idx;
  }

  // ---------------------------------------------------------------- accumulate

  // A block with n terms of a product added.
  ghost function Plus(d: Matrix, a: Matrix, b: Matrix, n: nat): Matrix { (y, x) => d(y, x) + Dot(a, b, y, x, n) }

  // Sub-blocks of four by four before y, x have been computed.
  ghost predicate Computed(s: seq<int>, w: nat, e: Matrix, d: Matrix, y: int, x: int) {
    && |s| == w * w
    && forall i, j :: 0 <= i < w && 0 <= j < w ==>
        0 <= Stored(w, false, i, j) < |s|
        && s[Stored(w, false, i, j)] == if i < y || (i < y + 4 && j < x) then e(i, j) else d(i, j)
  }

  // Registers hold a sub-block of a matrix.
  ghost predicate Registers(psum: array2<int>, m: Matrix, y: int, x: int)
    reads psum
  {
    && psum.Length0 == 4 && psum.Length1 == 4
    && forall i, j :: 0 <= i < 4 && 0 <= j < 4 ==> psum[i, j] == m(y + i, x + j)
  }

  lemma AnchorAt(w: int, y: int, x: int, i: int, j: int)
    ensures y * w + x + (i * w + j) == Stored(w, false, y + i, x + j)
  {
    assert (y + i) * w == y * w + i * w;
  }

  method LoadSub(psum: array2<int>, dest: array<int>, w: nat, y: nat, x: nat, ghost e: Matrix, ghost d: Matrix)
    requires psum.Length0 == 4 && psum.Length1 == 4 && y + 4 <= w && x + 4 <= w && Computed(dest[..], w, e, d, y, x)
    modifies psum
    ensures Registers(psum, d, y, x)
  {
    hide Stored;
    var anchor := y * w + x;
    for i := 0 to 4
      invariant forall k, l :: 0 <= k < i && 0 <= l < 4 ==> psum[k, l] == d(y + k, x + l)
    {
      for j := 0 to 4
        invariant forall k, l :: 0 <= k < 4 && 0 <= l < 4 && (k < i || (k == i && l < j)) ==> psum[k, l] == d(y + k, x + l)
      {
        AnchorAt(w, y, x, i, j);
        assert dest[..][Stored(w, false, y + i, x + j)] == d(y + i, x + j);
        psum[i, j] := dest[anchor + (i * w + j)];
      }
    }
  }

  /** A column of the first block. */
  method LoadColumn(m1: array<int>, w: nat, transposed: bool, y: nat, k: nat, ghost a: Matrix) returns (col: array<int>)
    requires IsBlock(m1[..], w, transposed, a) && y + 4 <= w && k < w
    ensures fresh(col) && col.Length == 4 && forall i :: 0 <= i < 4 ==> col[i] == a(y + i, k)
  {
    hide Stored;
    col := new int[4];
    for i := 0 to 4
      invariant forall l :: 0 <= l < i ==> col[l] == a(y + l, k)
    {
      ColumnAt(w, y, i, k);
      assert m1[..][Stored(w, transposed, y + i, k)] == a(y + i, k);
      if !transposed {
        col[i] := m1[y * w + k + i * w];
      } else {
        col[i] := m1[y + k * w + i];
      }
    }
  }

  lemma ColumnAt(w: int, y: int, i: int, k: int)
    ensures y * w + k + i * w == Stored(w, false, y + i, k) && y + k * w + i == Stored(w, true, y + i, k)
  {
    assert (y + i) * w == y * w + i * w;
  }

  /** A row of the second block. */
  method LoadRow(m2: array<int>, w: nat, x: nat, k: nat, ghost b: Matrix) returns (row: array<int>)
    requires IsBlock(m2[..], w, false, b) && x + 4 <= w && k < w
    ensures fresh(row) && row.Length == 4 && forall j :: 0 <= j < 4 ==> row[j] == b(k, x + j)
  {
    hide Stored;
    row := new int[4];
    for j := 0 to 4
      invariant forall l :: 0 <= l < j ==> row[l] == b(k, x + l)
    {
      RowAt(w, k, x, j);
      assert m2[..][Stored(w, false, k, x + j)] == b(k, x + j);
      row[j] := m2[k * w + x + j];
    }
  }

  lemma RowAt(w: int, k: int, x: int, j: int)
    ensures k * w + x + j == Stored(w, false, k, x + j)
  {
  }

  /** Multiply a column by a row and add. */
  method MultiplyAdd(psum: array2<int>, col: array<int>, row: array<int>, y: nat, x: nat, k: nat,
                     ghost d: Matrix, ghost a: Matrix, ghost b: Matrix)
    requires Registers(psum, Plus(d, a, b, k), y, x) && col.Length == 4 && row.Length == 4
    requires forall i :: 0 <= i < 4 ==> col[i] == a(y + i, k) && row[i] == b(k, x + i)
    modifies psum
    ensures Registers(psum, Plus(d, a, b, k + 1), y, x)
  {
    hide Plus;
    for i := 0 to 4
      invariant forall p, q :: 0 <= p < 4 && 0 <= q < 4 ==>
        psum[p, q] == if p < i then Plus(d, a, b, k + 1)(y + p, x + q) else Plus(d, a, b, k)(y + p, x + q)
    {
      for j := 0 to 4
        invariant forall p, q :: 0 <= p < 4 && 0 <= q < 4 ==>
          psum[p, q] == if p < i || (p == i && q < j) then Plus(d, a, b, k + 1)(y + p, x + q) else Plus(d, a, b, k)(y + p, x + q)
      {
        PlusStep(d, a, b, y + i, x + j, k);
        psum[i, j] := col[i] * row[j] + psum[i, j];
      }
    }
  }

  lemma PlusStep(d: Matrix, a: Matrix, b: Matrix, y: int, x: int, k: nat)
    ensures Plus(d, a, b, k + 1)(y, x) == a(y, k) * b(k, x) + Plus(d, a, b, k)(y, x)
  {
    var n := k + 1;
    assert Dot(a, b, y, x, n) == Dot(a, b, y, x, n - 1) + a(y, n - 1) * b(n - 1, x);
  }

  lemma PlusNothing(d: Matrix, a: Matrix, b: Matrix, y: int, x: int)
    ensures Plus(d, a, b, 0)(y, x) == d(y, x)
  {
  }

  method StoreSub(psum: array2<int>, dest: array<int>, w: nat, y: nat, x: nat, ghost e: Matrix, ghost d: Matrix)
    requires y + 4 <= w && x + 4 <= w && Computed(dest[..], w, e, d, y, x) && Registers(psum, e, y, x)
    modifies dest
    ensures Computed(dest[..], w, e, d, y, x + 4)
  {
    hide Stored, Computed;
    var anchor := y * w + x;
    ghost var s0 := dest[..];
    StoredNothing(s0, w, e, d, y, x);
    for i := 0 to 4
      invariant StoredPart(dest[..], w, e, d, y, x, i, 0)
    {
      for j := 0 to 4
        invariant StoredPart(dest[..], w, e, d, y, x, i, j)
      {
        AnchorAt(w, y, x, i, j);
        ghost var before := dest[..];
        StorePartStep(before, w, e, d, y, x, i, j);
        dest[anchor + (i * w + j)] := psum[i, j];
        assert dest[..] == before[Stored(w, false, y + i, x + j) := e(y + i, x + j)];
      }
      StoredRow(dest[..], w, e, d, y, x, i);
    }
    StoredAll(dest[..], w, e, d, y, x);
  }

  // Inside the sub-block at y, x, elements before i, j have been stored.
  ghost predicate StoredPart(s: seq<int>, w: nat, e: Matrix, d: Matrix, y: int, x: int, i: int, j: int) {
    && |s| == w * w
    && forall k, l :: 0 <= k < w && 0 <= l < w ==>
        0 <= Stored(w, false, k, l) < |s|
        && s[Stored(w, false, k, l)] ==
           if k < y || (k < y + 4 && l < x) || (y <= k < y + 4 && x <= l < x + 4 && Before(k - y, l - x, i, j))
           then e(k, l) else d(k, l)
  }

  lemma StoredNothing(s: seq<int>, w: nat, e: Matrix, d: Matrix, y: int, x: int)
    requires Computed(s, w, e, d, y, x)
    ensures StoredPart(s, w, e, d, y, x, 0, 0)
  {
    hide Stored;
  }

  lemma StoredRow(s: seq<int>, w: nat, e: Matrix, d: Matrix, y: int, x: int, i: int)
    requires StoredPart(s, w, e, d, y, x, i, 4)
    ensures StoredPart(s, w, e, d, y, x, i + 1, 0)
  {
    hide Stored;
  }

  lemma StoredAll(s: seq<int>, w: nat, e: Matrix, d: Matrix, y: int, x: int)
    requires StoredPart(s, w, e, d, y, x, 4, 0)
    ensures Computed(s, w, e, d, y, x + 4)
  {
    hide Stored;
  }

  lemma StorePartStep(s: seq<int>, w: nat, e: Matrix, d: Matrix, y: int, x: int, i: int, j: int)
    requires StoredPart(s, w, e, d, y, x, i, j) && 0 <= i < 4 && 0 <= j < 4 && 0 <= y && y + 4 <= w && 0 <= x && x + 4 <= w
    ensures 0 <= Stored(w, false, y + i, x + j) < |s|
    ensures StoredPart(s[Stored(w, false, y + i, x + j) := e(y + i, x + j)], w, e, d, y, x, i, j + 1)
  {
    hide Stored;
    var p := Stored(w, false, y + i, x + j);
    forall k, l | 0 <= k < w && 0 <= l < w && (k != y + i || l != x + j) ensures Stored(w, false, k, l) != p {
      if Stored(w, false, k, l) == p { StoredInjective(w, false, k, l, y + i, x + j); }
    }
  }

  /** Add the product of two blocks to a block, four by four elements at a time. */
  method AccumBlock(dest: array<int>, m1: array<int>, m2: array<int>, w: nat, transposed: bool,
                    ghost d: Matrix, ghost a: Matrix, ghost b: Matrix)
    requires w % 4 == 0 && dest != m1 && dest != m2
    requires IsBlock(dest[..], w, false, d) && IsBlock(m1[..], w, transposed, a) && IsBlock(m2[..], w, false, b)
    modifies dest
    ensures IsBlock(dest[..], w, false, Plus(d, a, b, w))
  {
    hide Stored, Plus, Registers, Computed, IsBlock;
    ghost var e := Plus(d, a, b, w);
    ComputedEnds(dest[..], w, e, d);
    for byI := 0 to w / 4
      invariant Computed(dest[..], w, e, d, 4 * byI, 0)
    {
      for bxI := 0 to w / 4
        invariant Computed(dest[..], w, e, d, 4 * byI, 4 * bxI)
      {
        SubBlock(dest, m1, m2, w, transposed, byI * 4, bxI * 4, d, a, b);
      }
      ComputedRow(dest[..], w, e, d, 4 * byI);
    }
    ComputedEnds(dest[..], w, e, d);
  }

  /** One sub-block: load it, add one column times one row after another, store it. */
  method SubBlock(dest: array<int>, m1: array<int>, m2: array<int>, w: nat, transposed: bool, y: nat, x: nat,
                  ghost d: Matrix, ghost a: Matrix, ghost b: Matrix)
    requires y + 4 <= w && x + 4 <= w && dest != m1 && dest != m2
    requires Computed(dest[..], w, Plus(d, a, b, w), d, y, x)
    requires IsBlock(m1[..], w, transposed, a) && IsBlock(m2[..], w, false, b)
    modifies dest
    ensures Computed(dest[..], w, Plus(d, a, b, w), d, y, x + 4)
  {
    hide Stored, Plus, Registers, Computed, IsBlock;
    var psum := new int[4, 4];
    LoadSub(psum, dest, w, y, x, Plus(d, a, b, w), d);
    RegistersStart(psum, d, a, b, y, x);
    for k := 0 to w
      invariant Registers(psum, Plus(d, a, b, k), y, x) && Computed(dest[..], w, Plus(d, a, b, w), d, y, x)
    {
      var col := LoadColumn(m1, w, transposed, y, k, a);
      var row := LoadRow(m2, w, x, k, b);
      MultiplyAdd(psum, col, row, y, x, k, d, a, b);
    }
    StoreSub(psum, dest, w, y, x, Plus(d, a, b, w), d);
  }

  lemma RegistersStart(psum: array2<int>, d: Matrix, a: Matrix, b: Matrix, y: int, x: int)
    requires Registers(psum, d, y, x)
    ensures Registers(psum, Plus(d, a, b, 0), y, x)
  {
    hide Plus;
    forall i, j | 0 <= i < 4 && 0 <= j < 4 ensures psum[i, j] == Plus(d, a, b, 0)(y + i, x + j) {
      PlusNothing(d, a, b, y + i, x + j);
    }
  }

  lemma ComputedEnds(s: seq<int>, w: nat, e: Matrix, d: Matrix)
    requires w % 4 == 0
    ensures IsBlock(s, w, false, d) ==> Computed(s, w, e, d, 0, 0)
    ensures Computed(s, w, e, d, 4 * (w / 4), 0) ==> IsBlock(s, w, false, e)
  {
    hide Stored;
  }

  lemma ComputedRow(s: seq<int>, w: nat, e: Matrix, d: Matrix, y: int)
    requires w % 4 == 0 && Computed(s, w, e, d, y, 4 * (w / 4))
    ensures Computed(s, w, e, d, y + 4, 0)
  {
    hide Stored;
  }

  // ---------------------------------------------------------------- store

  ghost function Zero(): Matrix { (i, j) => 0 }

  // Columns of a block column stay within one row of the matrix.
  ghost predicate ColumnsFit(stride: int, w: int, bc: int) { forall j :: 0 <= j < w ==> 0 <= Idx(w, bc, j) < stride }

  lemma AtInjective(stride: nat, w: nat, br: int, bc: int, i: int, j: int, br': int, bc': int, i': int, j': int)
    requires ColumnsFit(stride, w, bc) && ColumnsFit(stride, w, bc')
    requires 0 <= i < w && 0 <= j < w && 0 <= i' < w && 0 <= j' < w
    requires At(stride, w, br, bc, i, j) == At(stride, w, br', bc', i', j')
    ensures br == br' && bc == bc' && i == i' && j == j'
  {
    hide Idx;
    IdxInjective(stride, Idx(w, br, i), Idx(w, bc, j), Idx(w, br', i'), Idx(w, bc', j'));
    IdxInjective(w, br, i, br', i');
    IdxInjective(w, bc, j, bc', j');
  }

  ghost predicate InBlock(stride: int, w: int, br: int, bc: int, p: int) {
    exists i, j :: 0 <= i < w && 0 <= j < w && At(stride, w, br, bc, i, j) == p
  }

  // A block of the result is f before row y, column x; all else is as it was.
  ghost predicate BlockPart(s0: seq<int>, s: seq<int>, stride: nat, w: nat, br: int, bc: int, f: Matrix, y: int, x: int) {
    && |s| == |s0|
    && (forall i, j :: 0 <= i < w && 0 <= j < w && Before(i, j, y, x) ==>
          0 <= At(stride, w, br, bc, i, j) < |s| && s[At(stride, w, br, bc, i, j)] == f(i, j))
    && forall p :: 0 <= p < |s| && !InBlock(stride, w, br, bc, p) ==> s[p] == s0[p]
  }

  lemma BlockPartStep(s0: seq<int>, s: seq<int>, stride: nat, w: nat, br: int, bc: int, f: Matrix, y: int, x: int)
    requires BlockPart(s0, s, stride, w, br, bc, f, y, x) && BlockInside(|s|, stride, w, br, bc) && ColumnsFit(stride, w, bc)
    requires 0 <= y < w && 0 <= x < w
    ensures 0 <= At(stride, w, br, bc, y, x) < |s|
    ensures BlockPart(s0, s[At(stride, w, br, bc, y, x) := f(y, x)], stride, w, br, bc, f, y, x + 1)
  {
    hide At, ColumnsFit;
    var s' := s[At(stride, w, br, bc, y, x) := f(y, x)];
    forall i, j | 0 <= i < w && 0 <= j < w && Before(i, j, y, x + 1) ensures s'[At(stride, w, br, bc, i, j)] == f(i, j) {
      if At(stride, w, br, bc, i, j) == At(stride, w, br, bc, y, x) {
        AtInjective(stride, w, br, bc, i, j, br, bc, y, x);
      }
    }
  }

  lemma BlockPartRow(s0: seq<int>, s: seq<int>, stride: nat, w: nat, br: int, bc: int, f: Matrix, y: int)
    requires BlockPart(s0, s, stride, w, br, bc, f, y, w)
    ensures BlockPart(s0, s, stride, w, br, bc, f, y + 1, 0)
  {
    hide At, InBlock;
  }

  lemma BlockPartStart(s: seq<int>, stride: nat, w: nat, br: int, bc: int, f: Matrix)
    ensures BlockPart(s, s, stride, w, br, bc, f, 0, 0)
  {
    hide At, InBlock;
  }

  /** Store a finished block and clear it for the next one. */
  method StoreBlockAndReset(src: array<int>, dest: array<int>, stride: nat, w: nat, br: nat, bc: nat, ghost f: Matrix)
    requires src != dest && IsBlock(src[..], w, false, f)
    requires BlockInside(dest.Length, stride, w, br, bc) && ColumnsFit(stride, w, bc)
    modifies src, dest
    ensures IsBlock(src[..], w, false, Zero())
    ensures BlockPart(old(dest[..]), dest[..], stride, w, br, bc, f, w, 0)
  {
    hide Mixed, IsBlock, Idx, At, BlockPart, BlockInside, ColumnsFit, Stored;
    var base := br * w * stride + bc * w * 1;
    MixedEnds(src[..], w, false, Zero(), f);
    BlockPartStart(dest[..], stride, w, br, bc, f);
    for i := 0 to w
      invariant Mixed(src[..], w, false, Zero(), f, i, 0)
      invariant BlockPart(old(dest[..]), dest[..], stride, w, br, bc, f, i, 0)
    {
      for j := 0 to w
        invariant Mixed(src[..], w, false, Zero(), f, i, j)
        invariant BlockPart(old(dest[..]), dest[..], stride, w, br, bc, f, i, j)
      {
        Address(stride, w, br, bc, i, j);
        RowMajor(w, i, j);
        NextElement(src[..], w, f, i, j);
        BlockPartStep(old(dest[..]), dest[..], stride, w, br, bc, f, i, j);
        MixedStep(src[..], w, false, Zero(), f, i, j);
        ghost var d0, s0 := dest[..], src[..];
        dest[base + (i * stride + j)] := src[i * w + j];
        src[i * w + j] := 0;
        assert dest[..] == d0[At(stride, w, br, bc, i, j) := f(i, j)];
        assert src[..] == s0[Stored(w, false, i, j) := Zero()(i, j)];
      }
      MixedRow(src[..], w, false, Zero(), f, i);
      BlockPartRow(old(dest[..]), dest[..], stride, w, br, bc, f, i);
    }
    MixedEnds(src[..], w, false, Zero(), f);
  }

  lemma NextElement(s: seq<int>, w: nat, f: Matrix, i: int, j: int)
    requires Mixed(s, w, false, Zero(), f, i, j) && 0 <= i < w && 0 <= j < w
    ensures 0 <= Stored(w, false, i, j) < |s| && s[Stored(w, false, i, j)] == f(i, j)
  {
    hide Stored;
  }
}
