// The first-fit device memory manager: blocks live on a free list and a busy
// list, and freed blocks are merged lazily once the free list grows too long.
module MemoryManager {
  import opened Bits

  /** A block of device memory: start address and size in bytes. */
  datatype Block = Block(addr: nat, size: nat) {
    function End(): nat { addr + size }
    predicate Has(a: int) { addr <= a < End() }
  }

  /** What the constructor is given: the managed range and its alignment. */
  datatype RegionParams = RegionParams(start: nat, size: nat, alignment: nat) {
    predicate Has(a: int) { start <= a < start + size }
    // The constructor asserts the alignment of the start; the managed range
    // addresses 32-bit device memory and is not empty.
    predicate Valid() {
      && alignment > 0 && Aligned(start, alignment)
      && start > 0 && size > 0 && start + size <= TWO32
    }
  }

  type Region = r: RegionParams | r.Valid() witness RegionParams(4, 4, 4)

  /** The mutable part: both lists and the running total of free bytes. */
  datatype State = State(free: seq<Block>, busy: seq<Block>, freeSize: int)

  const NULL: nat := 0xFFFF_FFFF_FFFF_FFFF
  const COALESCE_THRESHOLD: nat := 4

  // ---------------------------------------------------------------- counting

  /** How many blocks of the list contain address a. */
  ghost function Cover(bs: seq<Block>, a: int): nat {
    if bs == [] then 0 else (if bs[0].Has(a) then 1 else 0) + Cover(bs[1..], a)
  }

  /** Total size of the blocks of a list. */
  ghost function Total(bs: seq<Block>): nat {
    if bs == [] then 0 else bs[0].size + Total(bs[1..])
  }

  lemma {:induction false} ConcatMeasures(bs: seq<Block>, cs: seq<Block>, a: int)
    ensures Cover(bs + cs, a) == Cover(bs, a) + Cover(cs, a)
    ensures Total(bs + cs) == Total(bs) + Total(cs)
  {
    if bs == [] {
      assert bs + cs == cs;
    } else {
      assert (bs + cs)[1..] == bs[1..] + cs;
      ConcatMeasures(bs[1..], cs, a);
    }
  }

  // A list measured as the blocks before position i, block i, the blocks after.
  lemma SplitMeasures(bs: seq<Block>, i: nat, a: int)
    requires i < |bs|
    ensures Cover(bs, a) == Cover(bs[..i], a) + (if bs[i].Has(a) then 1 else 0) + Cover(bs[i + 1..], a)
    ensures Total(bs) == Total(bs[..i]) + bs[i].size + Total(bs[i + 1..])
  {
    assert bs == bs[..i] + bs[i..];
    ConcatMeasures(bs[..i], bs[i..], a);
    assert bs[i..][1..] == bs[i + 1..];
  }

  // Replacing or erasing one block, and appending one.
  lemma EditMeasures(bs: seq<Block>, i: nat, b: Block, a: int)
    requires i < |bs|
    ensures Cover(bs[i := b], a) + (if bs[i].Has(a) then 1 else 0) == Cover(bs, a) + (if b.Has(a) then 1 else 0)
    ensures Total(bs[i := b]) + bs[i].size == Total(bs) + b.size
    ensures Cover(bs[..i] + bs[i + 1..], a) + (if bs[i].Has(a) then 1 else 0) == Cover(bs, a)
    ensures Total(bs[..i] + bs[i + 1..]) + bs[i].size == Total(bs)
  {
    SplitMeasures(bs, i, a);
    SplitMeasures(bs[i := b], i, a);
    assert bs[i := b][..i] == bs[..i] && bs[i := b][i + 1..] == bs[i + 1..];
    ConcatMeasures(bs[..i], bs[i + 1..], a);
  }

  lemma AppendMeasures(bs: seq<Block>, b: Block, a: int)
    ensures Cover(bs + [b], a) == Cover(bs, a) + (if b.Has(a) then 1 else 0)
    ensures Total(bs + [b]) == Total(bs) + b.size
  {
    ConcatMeasures(bs, [b], a);
  }

  // Two different positions holding the same address count at least twice.
  lemma {:induction false} CoverAtLeast(bs: seq<Block>, i: nat, a: int)
    requires i < |bs| && bs[i].Has(a)
    ensures Cover(bs, a) >= 1
  {
    SplitMeasures(bs, i, a);
  }

  lemma CoverAtLeastTwo(bs: seq<Block>, i: nat, j: nat, a: int)
    requires i < j < |bs| && bs[i].Has(a) && bs[j].Has(a)
    ensures Cover(bs, a) >= 2
  {
    SplitMeasures(bs, i, a);
    CoverAtLeast(bs[i + 1..], j - i - 1, a);
  }

  // ---------------------------------------------------------------- invariant

  ghost predicate AlignedBlock(r: Region, b: Block) {
    Aligned(b.addr, r.alignment) && b.size > 0
  }

  // Every address of the region is in exactly one listed block, and no other
  // address is in any.
  ghost predicate Partition(r: Region, s: State) {
    forall a: int {:trigger Cover(s.free, a)} {:trigger Cover(s.busy, a)} ::
      Cover(s.free, a) + Cover(s.busy, a) == if r.Has(a) then 1 else 0
  }

  ghost predicate Valid(r: Region, s: State) {
    && Partition(r, s)
    && (forall i :: 0 <= i < |s.free| ==> AlignedBlock(r, s.free[i]))
    && (forall i :: 0 <= i < |s.busy| ==> AlignedBlock(r, s.busy[i]) && Aligned(s.busy[i].size, r.alignment))
    && s.freeSize == Total(s.free)
    && Total(s.free) + Total(s.busy) == r.size
  }

  ghost predicate Disjoint(b: Block, c: Block) {
    b.End() <= c.addr || c.End() <= b.addr
  }

  ghost predicate Inside(r: Region, b: Block) {
    r.start <= b.addr && b.End() <= r.start + r.size
  }

  // What the invariant means for callers.
  lemma BlocksAreSeparate(r: Region, s: State)
    requires Valid(r, s)
    ensures forall i :: 0 <= i < |s.busy| ==> Inside(r, s.busy[i])
    ensures forall i :: 0 <= i < |s.free| ==> Inside(r, s.free[i])
    ensures forall i, j :: 0 <= i < j < |s.busy| ==> Disjoint(s.busy[i], s.busy[j])
    ensures forall i, j :: 0 <= i < j < |s.free| ==> Disjoint(s.free[i], s.free[j])
    ensures forall i, j :: 0 <= i < |s.busy| && 0 <= j < |s.free| ==> Disjoint(s.busy[i], s.free[j])
  {
    forall i | 0 <= i < |s.busy| ensures Inside(r, s.busy[i]) {
      var b := s.busy[i];
      CoverAtLeast(s.busy, i, b.addr);
      CoverAtLeast(s.busy, i, b.End() - 1);
    }
    forall i | 0 <= i < |s.free| ensures Inside(r, s.free[i]) {
      var b := s.free[i];
      CoverAtLeast(s.free, i, b.addr);
      CoverAtLeast(s.free, i, b.End() - 1);
    }
    forall i, j | 0 <= i < j < |s.busy| ensures Disjoint(s.busy[i], s.busy[j]) {
      if !Disjoint(s.busy[i], s.busy[j]) {
        CoverAtLeastTwo(s.busy, i, j, Shared(s.busy[i], s.busy[j]));
      }
    }
    forall i, j | 0 <= i < j < |s.free| ensures Disjoint(s.free[i], s.free[j]) {
      if !Disjoint(s.free[i], s.free[j]) {
        CoverAtLeastTwo(s.free, i, j, Shared(s.free[i], s.free[j]));
      }
    }
    forall i, j | 0 <= i < |s.busy| && 0 <= j < |s.free| ensures Disjoint(s.busy[i], s.free[j]) {
      if !Disjoint(s.busy[i], s.free[j]) {
        var a := Shared(s.busy[i], s.free[j]);
        CoverAtLeast(s.busy, i, a);
        CoverAtLeast(s.free, j, a);
      }
    }
  }

  ghost function Shared(b: Block, c: Block): nat {
    if b.addr < c.addr then c.addr else b.addr
  }

  // ---------------------------------------------------------------- alloc

  /** Rounds a request up to the alignment; an empty request takes one unit. */
  function RoundUp(size: nat, alignment: nat): nat
    requires alignment > 0
  {
    var size := if size == 0 then alignment else size;
    var mod := Rem(size, alignment);
    size + (if mod > 0 then alignment - mod else 0)
  }

  // Among the positive multiples of the alignment that hold the request, the
  // rounded size is the smallest.
  lemma RoundUpIsLeast(size: nat, alignment: nat)
    requires alignment > 0
    ensures var n := RoundUp(size, alignment);
      Aligned(n, alignment) && n > 0 && size <= n
      && forall m: nat :: Aligned(m, alignment) && m > 0 && size <= m ==> n <= m
  {
    var sz := if size == 0 then alignment else size;
    RoundUpWalks(sz, alignment);
    forall m: nat | Aligned(m, alignment) && m > 0 && size <= m ensures RoundUp(size, alignment) <= m {
      LeastMultiple(sz, m, alignment);
    }
  }

  lemma {:induction false} RoundUpWalks(size: nat, alignment: nat)
    requires size > 0 && alignment > 0
    ensures Aligned(RoundUp(size, alignment), alignment)
    ensures size <= RoundUp(size, alignment) < size + alignment
    ensures RoundUp(size, alignment) == if size > alignment then RoundUp(size - alignment, alignment) + alignment else alignment
  {
    hide Rem;
    QuotRemStep(size, alignment);
    if size > alignment {
      RoundUpWalks(size - alignment, alignment);
    } else {
      assert Aligned(alignment - alignment, alignment);
      QuotRemStep(0, alignment);
    }
  }

  lemma {:induction false} LeastMultiple(size: nat, m: nat, alignment: nat)
    requires alignment > 0 && size > 0 && m > 0 && Aligned(m, alignment)
    requires size <= m
    ensures RoundUp(size, alignment) <= m
  {
    RoundUpWalks(size, alignment);
    if size > alignment {
      LeastMultiple(size - alignment, m - alignment, alignment);
    }
  }

  /** Position of the first block that is large enough, or the list's length. */
  function FirstFit(bs: seq<Block>, n: nat): (i: nat)
    ensures i <= |bs|
    ensures i < |bs| ==> bs[i].size >= n
    ensures forall j :: 0 <= j < i ==> bs[j].size < n
  {
    if bs == [] then 0 else if bs[0].size >= n then 0 else 1 + FirstFit(bs[1..], n)
  }

  /** The state after taking the first n bytes of free block i. */
  function Take(s: State, i: nat, n: nat): State
    requires i < |s.free| && n <= s.free[i].size
  {
    var b := s.free[i];
    State(
      if b.size > n then s.free[i := Block(b.addr + n, b.size - n)] else s.free[..i] + s.free[i + 1..],
      s.busy + [Block(b.addr, n)],
      s.freeSize - n)
  }

  lemma TakeMeasures(s: State, i: nat, n: nat, a: int)
    requires i < |s.free| && n <= s.free[i].size
    ensures var t := Take(s, i, n);
      && Cover(t.free, a) + Cover(t.busy, a) == Cover(s.free, a) + Cover(s.busy, a)
      && Total(t.free) + n == Total(s.free) && Total(t.busy) == Total(s.busy) + n
  {
    var b := s.free[i];
    EditMeasures(s.free, i, Block(b.addr + n, b.size - n), a);
    AppendMeasures(s.busy, Block(b.addr, n), a);
  }

  lemma TakeKeepsAlignment(r: Region, s: State, i: nat, n: nat)
    requires i < |s.free| && 0 < n <= s.free[i].size && Aligned(n, r.alignment)
    requires forall i :: 0 <= i < |s.free| ==> AlignedBlock(r, s.free[i])
    ensures var t := Take(s, i, n); forall i :: 0 <= i < |t.free| ==> AlignedBlock(r, t.free[i])
  {
    AlignedSum(s.free[i].addr, n, r.alignment);
  }

  lemma TakeIsValid(r: Region, s: State, i: nat, n: nat)
    requires Valid(r, s) && i < |s.free|
    requires 0 < n <= s.free[i].size && Aligned(n, r.alignment)
    ensures Valid(r, Take(s, i, n))
  {
    var t := Take(s, i, n);
    TakeKeepsAlignment(r, s, i, n);
    forall a: int ensures Cover(t.free, a) + Cover(t.busy, a) == if r.Has(a) then 1 else 0 {
      TakeMeasures(s, i, n, a);
    }
    TakeMeasures(s, i, n, 0);
  }

  /** What alloc does to the lists and what it returns. */
  function AllocResult(r: Region, s: State, size: nat): (State, nat) {
    var n := RoundUp(size, r.alignment);
    var i := FirstFit(s.free, n);
    if i == |s.free| then (s, NULL) else (Take(s, i, n), s.free[i].addr)
  }

  // alloc fails exactly when no listed hole is large enough; otherwise the new
  // range lies in the region, holds the request, and overlaps no live range.
  lemma AllocIsSound(r: Region, s: State, size: nat)
    requires Valid(r, s)
    ensures var (t, p) := AllocResult(r, s, size);
      && Valid(r, t)
      && (p == NULL <==> forall i :: 0 <= i < |s.free| ==> s.free[i].size < RoundUp(size, r.alignment))
      && (p == NULL ==> t == s)
      && (p != NULL ==>
            var b := Block(p, RoundUp(size, r.alignment));
            && t.busy == s.busy + [b]
            && Inside(r, b) && b.size >= size
            && Aligned(b.addr, r.alignment)
            && t.freeSize + b.size == s.freeSize
            && forall i :: 0 <= i < |s.busy| ==> Disjoint(s.busy[i], b))
  {
    var n := RoundUp(size, r.alignment);
    var i := FirstFit(s.free, n);
    if i < |s.free| {
      RoundUpIsLeast(size, r.alignment);
      TakeIsValid(r, s, i, n);
      var t := Take(s, i, n);
      BlocksAreSeparate(r, t);
      BlocksAreSeparate(r, s);
      assert t.busy[|s.busy|] == Block(s.free[i].addr, n);
      forall k | 0 <= k < |s.busy| ensures Disjoint(s.busy[k], Block(s.free[i].addr, n)) {
        assert t.busy[k] == s.busy[k];
        assert Disjoint(t.busy[k], t.busy[|s.busy|]);
      }
    }
  }

  // The hole that is used is the first one on the list that is large enough: its
  // start is handed out, it loses its first bytes or disappears, and all other
  // holes stay as they are.
  lemma AllocTakesFirst(r: Region, s: State, size: nat, i: nat)
    requires i < |s.free| && s.free[i].size >= RoundUp(size, r.alignment)
    requires forall j :: 0 <= j < i ==> s.free[j].size < RoundUp(size, r.alignment)
    ensures var (t, p) := AllocResult(r, s, size); var b, n := s.free[i], RoundUp(size, r.alignment);
      && p == b.addr && t.busy == s.busy + [Block(b.addr, n)] && t.freeSize == s.freeSize - n
      && if b.size == n then t.free == s.free[..i] + s.free[i + 1..]
         else |t.free| == |s.free| && t.free[i] == Block(b.addr + n, b.size - n)
              && forall j :: 0 <= j < |s.free| && j != i ==> t.free[j] == s.free[j]
  {
    hide RoundUp;
    assert FirstFit(s.free, RoundUp(size, r.alignment)) == i;
  }

  // ---------------------------------------------------------------- coalesce

  /** The order std::pair gives the list's sort. */
  predicate Below(b: Block, c: Block) {
    b.addr < c.addr || (b.addr == c.addr && b.size <= c.size)
  }

  ghost predicate Sorted(bs: seq<Block>) {
    forall i, j :: 0 <= i < j < |bs| ==> Below(bs[i], bs[j])
  }

  function Insert(b: Block, bs: seq<Block>): seq<Block> {
    if bs == [] then [b]
    else if Below(b, bs[0]) then [b] + bs
    else [bs[0]] + Insert(b, bs[1..])
  }

  function Sort(bs: seq<Block>): seq<Block> {
    if bs == [] then [] else Insert(bs[0], Sort(bs[1..]))
  }

  lemma {:induction false} InsertIsSorted(b: Block, bs: seq<Block>)
    requires Sorted(bs)
    ensures Sorted(Insert(b, bs))
    ensures multiset(Insert(b, bs)) == multiset{b} + multiset(bs)
  {
    if bs == [] {
    } else if Below(b, bs[0]) {
    } else {
      var rest := Insert(b, bs[1..]);
      InsertIsSorted(b, bs[1..]);
      assert bs == [bs[0]] + bs[1..];
      forall j | 0 <= j < |rest| ensures Below(bs[0], rest[j]) {
        assert rest[j] in multiset(rest);
        assert rest[j] == b || rest[j] in multiset(bs[1..]);
      }
      assert Insert(b, bs) == [bs[0]] + rest;
    }
  }

  lemma {:induction false} InsertMeasures(b: Block, bs: seq<Block>, a: int)
    ensures Cover(Insert(b, bs), a) == Cover([b] + bs, a)
    ensures Total(Insert(b, bs)) == Total([b] + bs)
  {
    assert ([b] + bs)[1..] == bs;
    if bs != [] && !Below(b, bs[0]) {
      InsertMeasures(b, bs[1..], a);
      assert ([b] + bs[1..])[1..] == bs[1..];
      assert Insert(b, bs)[1..] == Insert(b, bs[1..]);
    } else if bs == [] {
      assert [b] + bs == [b];
    }
  }

  lemma {:induction false} SortIsSorted(bs: seq<Block>)
    ensures Sorted(Sort(bs))
    ensures multiset(Sort(bs)) == multiset(bs)
  {
    if bs != [] {
      SortIsSorted(bs[1..]);
      InsertIsSorted(bs[0], Sort(bs[1..]));
      assert bs == [bs[0]] + bs[1..];
    }
  }

  lemma SortKeepsLength(bs: seq<Block>)
    ensures |Sort(bs)| == |bs|
  {
    SortIsSorted(bs);
    assert |multiset(Sort(bs))| == |multiset(bs)|;
  }

  lemma {:induction false} SortMeasures(bs: seq<Block>, a: int)
    ensures Cover(Sort(bs), a) == Cover(bs, a)
    ensures Total(Sort(bs)) == Total(bs)
  {
    if bs != [] {
      SortMeasures(bs[1..], a);
      InsertMeasures(bs[0], Sort(bs[1..]), a);
      assert ([bs[0]] + Sort(bs[1..]))[1..] == Sort(bs[1..]);
    }
  }

  /** The list after every touching pair of neighbours has been joined, front to back. */
  function Merge(bs: seq<Block>): seq<Block>
    decreases |bs|
  {
    if |bs| < 2 then bs
    else if bs[0].End() == bs[1].addr then Merge([Block(bs[0].addr, bs[0].size + bs[1].size)] + bs[2..])
    else [bs[0]] + Merge(bs[1..])
  }

  /** The list with block i + 1 erased after its size was added to block i. */
  function Join(bs: seq<Block>, i: nat): (cs: seq<Block>)
    requires i + 1 < |bs|
    ensures |cs| == |bs| - 1
  {
    bs[..i] + [Block(bs[i].addr, bs[i].size + bs[i + 1].size)] + bs[i + 2..]
  }

  // One step of the walk: the merged list is the part already walked followed
  // by the merge of the rest.
  lemma MergeUnfolds(bs: seq<Block>, i: nat)
    requires i + 1 < |bs|
    ensures bs[..i] + Merge(bs[i..]) ==
      if bs[i].End() == bs[i + 1].addr then Join(bs, i)[..i] + Merge(Join(bs, i)[i..])
      else bs[..i + 1] + Merge(bs[i + 1..])
  {
    var rest := bs[i..];
    var b := Block(bs[i].addr, bs[i].size + bs[i + 1].size);
    if bs[i].End() == bs[i + 1].addr {
      assert rest[2..] == bs[i + 2..];
      assert Join(bs, i)[i..] == [b] + rest[2..];
      assert Join(bs, i)[..i] == bs[..i];
    } else {
      assert rest[1..] == bs[i + 1..];
      assert bs[..i + 1] == bs[..i] + [bs[i]];
    }
  }

  lemma MergeEnds(bs: seq<Block>, i: nat)
    requires i + 1 == |bs|
    ensures bs[..i] + Merge(bs[i..]) == bs
  {
    assert bs[..i] + bs[i..] == bs;
  }

  lemma {:induction false} MergeMeasures(bs: seq<Block>, a: int)
    ensures Cover(Merge(bs), a) == Cover(bs, a)
    ensures Total(Merge(bs)) == Total(bs)
    decreases |bs|
  {
    if |bs| < 2 {
    } else if bs[0].End() == bs[1].addr {
      var joined := Block(bs[0].addr, bs[0].size + bs[1].size);
      MergeMeasures([joined] + bs[2..], a);
      assert ([joined] + bs[2..])[1..] == bs[2..];
      assert bs[1..][1..] == bs[2..];
    } else {
      MergeMeasures(bs[1..], a);
      assert ([bs[0]] + Merge(bs[1..]))[1..] == Merge(bs[1..]);
    }
  }

  // Neighbours in address order without overlap; strictly apart when gap is set.
  ghost predicate Ascending(bs: seq<Block>, gap: bool) {
    forall i :: 0 <= i < |bs| - 1 ==> if gap then bs[i].End() < bs[i + 1].addr else bs[i].End() <= bs[i + 1].addr
  }

  lemma {:induction false} MergeLeavesGaps(r: Region, bs: seq<Block>)
    requires Ascending(bs, false)
    requires forall i :: 0 <= i < |bs| ==> AlignedBlock(r, bs[i])
    ensures Ascending(Merge(bs), true)
    ensures forall i :: 0 <= i < |Merge(bs)| ==> AlignedBlock(r, Merge(bs)[i])
    ensures bs != [] ==> Merge(bs) != [] && Merge(bs)[0].addr == bs[0].addr
    decreases |bs|
  {
    if |bs| < 2 {
    } else if bs[0].End() == bs[1].addr {
      var next := [Block(bs[0].addr, bs[0].size + bs[1].size)] + bs[2..];
      forall i | 0 <= i < |next| - 1 ensures next[i].End() <= next[i + 1].addr {
        assert bs[i + 1].End() <= bs[i + 2].addr;
      }
      MergeLeavesGaps(r, next);
    } else {
      MergeLeavesGaps(r, bs[1..]);
      var m := Merge(bs[1..]);
      assert Merge(bs) == [bs[0]] + m;
      forall i | 0 <= i < |m| ensures ([bs[0]] + m)[i + 1] == m[i] {}
    }
  }

  // A sorted free list of a valid state is already in ascending order.
  lemma SortedIsAscending(r: Region, s: State, bs: seq<Block>)
    requires Valid(r, s) && Sorted(bs) && multiset(bs) == multiset(s.free)
    requires forall a :: Cover(bs, a) == Cover(s.free, a)
    ensures Ascending(bs, false)
    ensures forall i :: 0 <= i < |bs| ==> AlignedBlock(r, bs[i])
  {
    forall i | 0 <= i < |bs| ensures AlignedBlock(r, bs[i]) {
      assert bs[i] in multiset(bs);
      assert bs[i] in s.free;
    }
    forall i | 0 <= i < |bs| - 1 ensures bs[i].End() <= bs[i + 1].addr {
      assert Below(bs[i], bs[i + 1]);
      if bs[i].End() > bs[i + 1].addr {
        CoverAtLeastTwo(bs, i, i + 1, bs[i + 1].addr);
      }
    }
  }

  // Coalescing keeps exactly the same free addresses and the same total, and
  // leaves the list in address order with a gap between any two neighbours.
  lemma CoalesceIsSound(r: Region, s: State)
    requires Valid(r, s)
    ensures var t := s.(free := Merge(Sort(s.free)));
      Valid(r, t) && Ascending(t.free, true) && forall a :: Cover(t.free, a) == Cover(s.free, a)
  {
    var sorted := Sort(s.free);
    var t := s.(free := Merge(sorted));
    SortIsSorted(s.free);
    forall a ensures Cover(sorted, a) == Cover(s.free, a) { SortMeasures(s.free, a); }
    SortedIsAscending(r, s, sorted);
    MergeLeavesGaps(r, sorted);
    forall a ensures Cover(t.free, a) == Cover(s.free, a) { MergeMeasures(sorted, a); }
    MergeMeasures(sorted, 0);
    SortMeasures(s.free, 0);
    forall a: int ensures Cover(t.free, a) + Cover(t.busy, a) == if r.Has(a) then 1 else 0 {
      assert Cover(s.free, a) + Cover(s.busy, a) == if r.Has(a) then 1 else 0;
    }
  }

  // ---------------------------------------------------------------- free

  /** Position of the first busy block starting at addr, or the list's length. */
  function Find(bs: seq<Block>, addr: nat): (i: nat)
    ensures i <= |bs|
    ensures i < |bs| ==> bs[i].addr == addr
    ensures forall j :: 0 <= j < i ==> bs[j].addr != addr
  {
    if bs == [] then 0 else if bs[0].addr == addr then 0 else 1 + Find(bs[1..], addr)
  }

  /** The state after busy block i has been moved to the end of the free list. */
  function GiveBack(s: State, i: nat): State
    requires i < |s.busy|
  {
    State(s.free + [s.busy[i]], s.busy[..i] + s.busy[i + 1..], s.freeSize + s.busy[i].size)
  }

  /** What free does: nothing for an address that was not handed out. */
  function FreeResult(s: State, addr: nat): State {
    var i := Find(s.busy, addr);
    if i == |s.busy| then s
    else
      var t := GiveBack(s, i);
      if |t.free| > COALESCE_THRESHOLD then t.(free := Merge(Sort(t.free))) else t
  }

  lemma GiveBackIsValid(r: Region, s: State, i: nat)
    requires Valid(r, s) && i < |s.busy|
    ensures Valid(r, GiveBack(s, i))
  {
    var b := s.busy[i];
    var t := GiveBack(s, i);
    forall a: int ensures Cover(t.free, a) + Cover(t.busy, a) == if r.Has(a) then 1 else 0 {
      EditMeasures(s.busy, i, b, a);
      AppendMeasures(s.free, b, a);
      assert Cover(s.free, a) + Cover(s.busy, a) == if r.Has(a) then 1 else 0;
    }
    EditMeasures(s.busy, i, b, 0);
    AppendMeasures(s.free, b, 0);
  }

  lemma GiveBackRemovesOne(r: Region, s: State, i: nat)
    requires Valid(r, s) && i < |s.busy|
    ensures forall b :: b in GiveBack(s, i).busy <==> b in s.busy && b.addr != s.busy[i].addr
  {
    BlocksAreSeparate(r, s);
    var t := GiveBack(s, i);
    forall j | 0 <= j < |s.busy| && j != i
      ensures s.busy[j].addr != s.busy[i].addr && s.busy[j] in t.busy
    {
      if j < i {
        assert Disjoint(s.busy[j], s.busy[i]) && t.busy[j] == s.busy[j];
      } else {
        assert Disjoint(s.busy[i], s.busy[j]) && t.busy[j - 1] == s.busy[j];
      }
    }
  }

  // Freeing removes exactly the block at that address, if there is one, and
  // its bytes are exactly the addresses that become free.
  lemma FreeIsSound(r: Region, s: State, addr: nat)
    requires Valid(r, s)
    ensures var t := FreeResult(s, addr);
      && Valid(r, t)
      && (forall b :: b in t.busy <==> b in s.busy && b.addr != addr)
      && (forall b :: b in s.busy && b.addr == addr ==>
            && t.freeSize == s.freeSize + b.size
            && forall a :: Cover(t.free, a) == Cover(s.free, a) + if b.Has(a) then 1 else 0)
      && ((forall b :: b in s.busy ==> b.addr != addr) ==> t == s)
  {
    var i := Find(s.busy, addr);
    if i < |s.busy| {
      var t := GiveBack(s, i);
      var found := s.busy[i];
      GiveBackIsValid(r, s, i);
      GiveBackRemovesOne(r, s, i);
      CoalesceIsSound(r, t);
      forall a ensures Cover(t.free, a) == Cover(s.free, a) + if found.Has(a) then 1 else 0 {
        AppendMeasures(s.free, found, a);
      }
      assert found in s.busy;
      UniqueAddress(r, s, i);
    }
  }

  // The block goes to the end of the free list. With fewer than four holes before,
  // that is all; otherwise the list is coalesced.
  lemma FreeExactly(r: Region, s: State, i: nat)
    requires Valid(r, s) && i < |s.busy|
    ensures var b := s.busy[i]; var t := FreeResult(s, b.addr);
      && t.busy == s.busy[..i] + s.busy[i + 1..] && t.freeSize == s.freeSize + b.size
      && if |s.free| < 4 then t.free == s.free + [b]
         else Ascending(t.free, true) && forall a :: Cover(t.free, a) == Cover(s.free, a) + if b.Has(a) then 1 else 0
  {
    var b := s.busy[i];
    var j := Find(s.busy, b.addr);
    UniqueAddress(r, s, i);
    BlocksAreSeparate(r, s);
    assert forall k :: 0 <= k < i ==> Disjoint(s.busy[k], s.busy[i]);
    assert j == i;
    FreeIsSound(r, s, b.addr);
    GiveBackIsValid(r, s, i);
    CoalesceIsSound(r, GiveBack(s, i));
  }

  lemma UniqueAddress(r: Region, s: State, i: nat)
    requires Valid(r, s) && i < |s.busy|
    ensures forall b :: b in s.busy && b.addr == s.busy[i].addr ==> b == s.busy[i]
  {
    BlocksAreSeparate(r, s);
    forall j | 0 <= j < |s.busy| && j != i ensures s.busy[j].addr != s.busy[i].addr {
      if j < i { assert Disjoint(s.busy[j], s.busy[i]); } else { assert Disjoint(s.busy[i], s.busy[j]); }
    }
  }

  // Freeing what was just allocated restores the busy list, the total, and the
  // set of free addresses.
  lemma FreeUndoesAlloc(r: Region, s: State, size: nat)
    requires Valid(r, s) && AllocResult(r, s, size).1 != NULL
    ensures var (t, p) := AllocResult(r, s, size);
      var u := FreeResult(t, p);
      u.busy == s.busy && u.freeSize == s.freeSize && forall a :: Cover(u.free, a) == Cover(s.free, a)
  {
    var (t, p) := AllocResult(r, s, size);
    AllocIsSound(r, s, size);
    AllocIsNew(r, s, size);
    var u := FreeResult(t, p);
    assert u.busy == s.busy by { FreeTakesLast(t, s.busy, Block(p, RoundUp(size, r.alignment))); }
    FreeIsSound(r, t, p);
    forall a ensures Cover(u.free, a) == Cover(s.free, a) {
      assert Cover(u.free, a) + Cover(u.busy, a) == Cover(s.free, a) + Cover(s.busy, a);
    }
  }

  lemma FreeTakesLast(t: State, busy: seq<Block>, b: Block)
    requires t.busy == busy + [b] && forall c :: c in busy ==> c.addr != b.addr
    ensures FreeResult(t, b.addr).busy == busy
  {
    forall j | 0 <= j < |busy| ensures t.busy[j].addr != b.addr {
      assert t.busy[j] in busy;
    }
    assert t.busy[|busy|] == b;
    assert t.busy[..|busy|] + t.busy[|busy| + 1..] == busy;
  }

  // ---------------------------------------------------------------- histories

  datatype Op = Alloc(size: nat) | Free(addr: nat)

  function Initial(r: Region): State {
    State([Block(r.start, r.size)], [], r.size)
  }

  function Step(r: Region, s: State, op: Op): State {
    match op
    case Alloc(size) => AllocResult(r, s, size).0
    case Free(addr) => FreeResult(s, addr)
  }

  lemma InitialIsValid(r: Region)
    ensures Valid(r, Initial(r))
  {
    var s := Initial(r);
    assert s.free[1..] == [];
  }

  lemma StepIsValid(r: Region, s: State, op: Op)
    requires Valid(r, s)
    ensures Valid(r, Step(r, s, op))
  {
    match op
    case Alloc(size) => AllocIsSound(r, s, size);
    case Free(addr) => FreeIsSound(r, s, addr);
  }

  /** The state after a whole history of calls. */
  function Run(r: Region, s: State, ops: seq<Op>): State
    decreases |ops|
  {
    if ops == [] then s else Run(r, Step(r, s, ops[0]), ops[1..])
  }

  lemma {:induction false} RunIsValid(r: Region, s: State, ops: seq<Op>)
    requires Valid(r, s)
    ensures Valid(r, Run(r, s, ops))
    decreases |ops|
  {
    if ops != [] {
      StepIsValid(r, s, ops[0]);
      RunIsValid(r, Step(r, s, ops[0]), ops[1..]);
    }
  }

  lemma StepKeepsLive(r: Region, s: State, op: Op, b: Block)
    requires Valid(r, s) && b in s.busy && op != Free(b.addr)
    ensures b in Step(r, s, op).busy
  {
    match op
    case Alloc(size) => AllocIsSound(r, s, size);
    case Free(addr) => FreeIsSound(r, s, addr);
  }

  // Whatever the history, a range handed out stays reserved, untouched and
  // disjoint from every other live one, until its own address is freed.
  lemma {:induction false} LiveUntilFreed(r: Region, s: State, ops: seq<Op>, b: Block)
    requires Valid(r, s) && b in s.busy && Free(b.addr) !in ops
    ensures var t := Run(r, s, ops);
      b in t.busy && forall c :: c in t.busy && c != b ==> Disjoint(b, c)
    decreases |ops|
  {
    if ops == [] {
      BlocksAreSeparate(r, s);
    } else {
      StepIsValid(r, s, ops[0]);
      StepKeepsLive(r, s, ops[0], b);
      LiveUntilFreed(r, Step(r, s, ops[0]), ops[1..], b);
    }
  }

  // From the constructor's state: the free and busy lists always tile the
  // region, and the byte counter is always the size minus what is live.
  lemma HistoryInvariant(r: Region, ops: seq<Op>)
    ensures var t := Run(r, Initial(r), ops);
      && (forall a :: Cover(t.free, a) + Cover(t.busy, a) == if r.Has(a) then 1 else 0)
      && t.freeSize == r.size - Total(t.busy)
      && (t.busy == [] ==> t.freeSize == r.size)
  {
    InitialIsValid(r);
    RunIsValid(r, Initial(r), ops);
  }

  // ---------------------------------------------------------------- the object

  class Manager {
    const region: Region
    var free: seq<Block>
    var busy: seq<Block>
    var freeSize: int

    ghost function View(): State
      reads this
    {
      State(free, busy, freeSize)
    }

    ghost predicate Ok()
      reads this
    {
      Valid(region, View())
    }

    constructor (r: Region)
      ensures region == r && Ok() && View() == Initial(r)
    {
      region := r;
      free := [Block(r.start, r.size)];
      busy := [];
      freeSize := r.size;
      new;
      InitialIsValid(r);
    }

    method Allocate(size: nat) returns (result: nat)
      requires Ok()
      modifies this
      ensures Ok()
      ensures (View(), result) == AllocResult(region, old(View()), size)
    {
      hide Valid, Merge, Sort, Cover, Total;
      AllocIsSound(region, View(), size);
      RoundUpIsLeast(size, region.alignment);
      var n := RoundUp(size, region.alignment);
      result := NULL;
      var i := 0;
      while i < |free|
        invariant 0 <= i <= |free|
        invariant View() == old(View()) && result == NULL
        invariant forall j :: 0 <= j < i ==> free[j].size < n
      {
        if free[i].size < n {
          i := i + 1;
          continue;
        }
        assert AllocResult(region, View(), size) == (Take(View(), i, n), free[i].addr);
        result := free[i].addr;
        if free[i].size > n {
          free := free[i := Block(free[i].addr + n, free[i].size - n)];
        } else {
          free := free[..i] + free[i + 1..];
        }
        busy := busy + [Block(result, n)];
        freeSize := freeSize - n;
        break;
      }
    }

    method Release(addr: nat)
      requires Ok()
      modifies this
      ensures Ok()
      ensures View() == FreeResult(old(View()), addr)
    {
      hide Valid, Merge, Sort, Cover, Total;
      ghost var s := View();
      FreeIsSound(region, s, addr);
      var i := 0;
      while i < |busy| && busy[i].addr != addr
        invariant 0 <= i <= |busy|
        invariant forall j :: 0 <= j < i ==> busy[j].addr != addr
      {
        i := i + 1;
      }
      assert i == Find(s.busy, addr);
      if i < |busy| {
        freeSize := freeSize + busy[i].size;
        free := free + [busy[i]];
        busy := busy[..i] + busy[i + 1..];
        assert View() == GiveBack(s, i);
        if |free| > COALESCE_THRESHOLD {
          Coalesce();
        }
      }
    }

    // Sorts the list, then walks it once, erasing the second block of every
    // touching pair from the list being walked.
    method Coalesce()
      requires free != []
      modifies this`free
      ensures free == Merge(Sort(old(free)))
    {
      free := Sort(free);
      SortKeepsLength(old(free));
      ghost var sorted := free;
      var curr := 0;
      while curr + 1 < |free|
        invariant 0 <= curr < |free|
        invariant Merge(sorted) == free[..curr] + Merge(free[curr..])
        decreases |free| - curr
      {
        MergeUnfolds(free, curr);
        if free[curr].End() != free[curr + 1].addr {
          curr := curr + 1;
        } else {
          free := Join(free, curr);
        }
      }
      MergeEnds(free, curr);
    }
  }

  // ---------------------------------------------------------------- holes

  // Some listed hole has n bytes, unless none are wanted.
  ghost predicate HasHole(bs: seq<Block>, n: nat) { n == 0 || exists i :: 0 <= i < |bs| && bs[i].size >= n }

  // A hole large enough for two requests still holds the second after the first
  // was served, from whatever hole.
  lemma AllocKeepsHole(r: Region, s: State, size: nat, rest: nat)
    requires Valid(r, s) && HasHole(s.free, RoundUp(size, r.alignment) + rest)
    ensures var (t, p) := AllocResult(r, s, size); p != NULL && HasHole(t.free, rest)
  {
    hide Valid, RoundUp;
    AllocIsSound(r, s, size);
    RoundUpIsLeast(size, r.alignment);
    var n := RoundUp(size, r.alignment);
    var t := AllocResult(r, s, size).0;
    var j :| 0 <= j < |s.free| && s.free[j].size >= n + rest;
    var i := FirstFit(s.free, n);
    assert i <= j;
    if rest > 0 {
      if s.free[i].size > n {
        assert t.free[j].size >= rest;
      } else {
        assert t.free[j - 1] == s.free[j];
      }
    }
  }

  lemma {:induction false} MergeKeepsHole(bs: seq<Block>, n: nat)
    requires HasHole(bs, n)
    ensures HasHole(Merge(bs), n)
    decreases |bs|
  {
    if n > 0 && |bs| >= 2 {
      var i :| 0 <= i < |bs| && bs[i].size >= n;
      if bs[0].End() == bs[1].addr {
        var next := [Block(bs[0].addr, bs[0].size + bs[1].size)] + bs[2..];
        assert next[if i < 2 then 0 else i - 1].size >= n;
        MergeKeepsHole(next, n);
      } else if i == 0 {
        assert Merge(bs)[0] == bs[0];
      } else {
        assert bs[1..][i - 1] == bs[i];
        MergeKeepsHole(bs[1..], n);
        var m := Merge(bs[1..]);
        var k :| 0 <= k < |m| && m[k].size >= n;
        assert Merge(bs)[k + 1] == m[k];
      }
    }
  }

  // Freeing, with or without a coalesce, does not lose a hole.
  lemma FreeKeepsHole(s: State, addr: nat, n: nat)
    requires HasHole(s.free, n)
    ensures HasHole(FreeResult(s, addr).free, n)
  {
    var i := Find(s.busy, addr);
    if n > 0 && i < |s.busy| {
      var t := GiveBack(s, i);
      var j :| 0 <= j < |s.free| && s.free[j].size >= n;
      assert t.free[j] == s.free[j];
      SortIsSorted(t.free);
      assert t.free[j] in multiset(t.free);
      assert t.free[j] in Sort(t.free);
      var k :| 0 <= k < |Sort(t.free)| && Sort(t.free)[k] == t.free[j];
      MergeKeepsHole(Sort(t.free), n);
    }
  }

  // ---------------------------------------------------------------- pod malloc

  datatype MallocStatus = Success | NoMem

  /** The pod-level allocation: the 64-bit result is stored in a 32-bit address
      before it is compared with the 64-bit null value. */
  function PodMalloc(r: Region, s: State, size: nat): (State, MallocStatus, nat) {
    var (t, p) := AllocResult(r, s, size);
    var eva := p % TWO32;
    (t, if eva == NULL then NoMem else Success, eva)
  }

  // The out-of-memory status is therefore never reported; the address is a
  // real allocation exactly when some listed hole is large enough.
  lemma PodMallocNeverReportsNoMem(r: Region, s: State, size: nat)
    requires Valid(r, s) && Aligned(r.alignment, 4)
    ensures var (t, status, eva) := PodMalloc(r, s, size);
      && status == Success
      && ((exists b :: b in t.busy && b !in s.busy && b.addr == eva)
          <==> exists i :: 0 <= i < |s.free| && s.free[i].size >= RoundUp(size, r.alignment))
      && (eva == 0xFFFF_FFFF
          <==> forall i :: 0 <= i < |s.free| ==> s.free[i].size < RoundUp(size, r.alignment))
  {
    AllocIsSound(r, s, size);
    var (t, p) := AllocResult(r, s, size);
    if p != NULL {
      AllocIsNew(r, s, size);
      AlignedToWords(p, r.alignment);
      assert t.busy[|s.busy|].addr == p;
    }
  }

  // It happens: one allocation takes all of the smallest region, and the next one
  // succeeds with an address that was not handed out.
  lemma ExhaustedMallocSucceeds() returns (r: Region, s: State)
    ensures Valid(r, s) && PodMalloc(r, s, 8) == (s, Success, 0xFFFF_FFFF)
  {
    hide Valid;
    r := RegionParams(4, 4, 4);
    s := State([], [Block(4, 4)], 0);
    InitialIsValid(r);
    AllocIsSound(r, Initial(r), 4);
    TakeAll(r);
    NothingLeft(r, s, 8);
  }

  lemma TakeAll(r: Region)
    requires r == RegionParams(4, 4, 4)
    ensures AllocResult(r, Initial(r), 4).0 == State([], [Block(4, 4)], 0)
  {
    assert RoundUp(4, 4) == 4;
    assert Initial(r).free[..0] + Initial(r).free[1..] == [];
  }

  lemma NothingLeft(r: Region, s: State, size: nat)
    requires s.free == []
    ensures PodMalloc(r, s, size) == (s, Success, 0xFFFF_FFFF)
  {
    hide RoundUp;
    assert NULL % TWO32 == 0xFFFF_FFFF;
  }

  // An address just handed out is a 32-bit address that no live block starts at.
  lemma AllocIsNew(r: Region, s: State, size: nat)
    requires Valid(r, s) && AllocResult(r, s, size).1 != NULL
    ensures var (t, p) := AllocResult(r, s, size);
      && 0 < p < TWO32 && Aligned(p, r.alignment)
      && t.busy == s.busy + [Block(p, RoundUp(size, r.alignment))]
      && forall b :: b in s.busy ==> b.addr != p
  {
    AllocIsSound(r, s, size);
    RoundUpIsLeast(size, r.alignment);
    var p := AllocResult(r, s, size).1;
    forall i | 0 <= i < |s.busy| ensures s.busy[i].addr != p {
      assert Disjoint(s.busy[i], Block(p, RoundUp(size, r.alignment)));
    }
  }

  lemma {:induction false} AlignedToWords(a: nat, m: nat)
    requires m > 0 && Aligned(m, 4) && Aligned(a, m)
    ensures Aligned(a, 4) && a % 4 == 0
  {
    if a > 0 {
      AlignedToWords(a - m, m);
      AlignedSum(a - m, m, 4);
    }
    AlignedIsMultiple(a, 4);
  }
}
