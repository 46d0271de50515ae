// Copies between host buffers and a range of EVAs, chunk by chunk, through an
// address map given as a function.
module EvaCopy {
  import opened Bits
  import opened EvaMap
  import opened RemoteRead

  /** The translation function of an address map, as seen by one tile. */
  type Map = nat -> Translation

  ghost predicate Mapped(tr: Map, eva: nat, n: nat) {
    forall e: nat :: eva <= e < eva + n ==> tr(e).Ok?
  }

  // What the copy loops rely on in a window lo .. hi - 1 of addresses: up to the
  // reported size addresses move together; different addresses never meet; chunks
  // are not empty, stay in the window, and end on word boundaries.
  ghost predicate Moves(tr: Map, lo: nat, hi: nat) {
    forall e: nat, e': nat :: lo <= e < hi && tr(e).Ok? && e <= e' < e + tr(e).size ==>
      tr(e').Ok? && tr(e').npa == Plus(tr(e).npa, e' - e)
  }

  ghost predicate Apart(tr: Map, lo: nat, hi: nat) {
    forall e: nat, e': nat :: lo <= e < hi && lo <= e' < hi && tr(e).Ok? && tr(e').Ok? && tr(e).npa == tr(e').npa ==> e == e'
  }

  ghost predicate Words(tr: Map, lo: nat, hi: nat) {
    forall e: nat :: lo <= e < hi && tr(e).Ok? ==>
      && tr(e).size > 0 && e + tr(e).size <= hi && (e + tr(e).size) % 4 == 0
      && tr(e).npa.epa % 4 == e % 4 && tr(e).npa.epa < TWO32
  }

  ghost predicate Lawful(tr: Map, lo: nat, hi: nat) {
    hi <= TWO32 && Moves(tr, lo, hi) && Apart(tr, lo, hi) && Words(tr, lo, hi)
  }

  // A range that starts in the window, or at its end, and that cannot leave it
  // unnoticed.
  ghost predicate Starts(tr: Map, lo: nat, hi: nat, eva: nat, n: nat) {
    lo <= eva <= hi && (eva + n <= hi || (hi < TWO32 && !tr(hi).Ok?))
  }

  // The same, or the very first word is refused.
  ghost predicate MayStart(tr: Map, lo: nat, hi: nat, eva: nat, n: nat) {
    Starts(tr, lo, hi, eva, n) || (lo <= eva < hi && eva % 4 != 0)
  }

  // ---------------------------------------------------------------- flat memory

  ghost predicate InRange(tr: Map, eva: nat, n: nat, npa: Npa) {
    exists e: nat :: eva <= e < eva + n && tr(e).Ok? && tr(e).npa == npa
  }

  // Seen through the map, the range holds the data.
  ghost predicate FlatHolds(tr: Map, mem: Memory, eva: nat, data: seq<Byte>) {
    forall e: nat :: eva <= e < eva + |data| ==> tr(e).Ok? && Get(mem, tr(e).npa) == data[e - eva]
  }

  // No byte of the device outside the range changed.
  ghost predicate OnlyRange(tr: Map, before: Memory, after: Memory, eva: nat, n: nat) {
    forall npa :: !InRange(tr, eva, n, npa) ==> Get(after, npa) == Get(before, npa)
  }

  ghost predicate FlatWritten(tr: Map, before: Memory, after: Memory, eva: nat, data: seq<Byte>) {
    FlatHolds(tr, after, eva, data) && OnlyRange(tr, before, after, eva, |data|)
  }

  ghost predicate InRun(npa: Npa, n: nat, m: Npa) {
    exists k: nat :: k < n && m == Plus(npa, k)
  }

  // The same for a run of consecutive physical addresses.
  ghost predicate RunHolds(mem: Memory, npa: Npa, data: seq<Byte>) {
    forall k: nat :: k < |data| ==> Get(mem, Plus(npa, k)) == data[k]
  }

  ghost predicate RunWritten(before: Memory, after: Memory, npa: Npa, data: seq<Byte>) {
    RunHolds(after, npa, data) && forall m :: !InRun(npa, |data|, m) ==> Get(after, m) == Get(before, m)
  }

  lemma EmptyRange(tr: Map, mem: Memory, eva: nat)
    ensures FlatWritten(tr, mem, mem, eva, [])
  {
  }

  // Writing one chunk extends the part of the range that is written: by
  // injectivity it leaves the earlier bytes alone.
  lemma ChunkExtends(tr: Map, lo: nat, hi: nat, m0: Memory, m1: Memory, m2: Memory, eva: nat, data: seq<Byte>, chunk: seq<Byte>)
    requires Lawful(tr, lo, hi) && lo <= eva && eva + |data| < hi
    requires FlatWritten(tr, m0, m1, eva, data)
    requires tr(eva + |data|).Ok? && |chunk| <= tr(eva + |data|).size
    requires RunWritten(m1, m2, tr(eva + |data|).npa, chunk)
    ensures FlatWritten(tr, m0, m2, eva, data + chunk)
    ensures eva + |data + chunk| <= hi
  {
    hide Get, Plus, InRange, InRun;
    var next := eva + |data|;
    forall e: nat | eva <= e < eva + |data + chunk|
      ensures tr(e).Ok? && Get(m2, tr(e).npa) == (data + chunk)[e - eva]
    {
      if e < next {
        EarlierByteKept(tr, lo, hi, m1, m2, e, next, chunk);
      } else {
        assert tr(e).npa == Plus(tr(next).npa, e - next);
      }
    }
    forall npa | !InRange(tr, eva, |data + chunk|, npa) ensures Get(m2, npa) == Get(m0, npa) {
      NarrowerRange(tr, eva, |data|, |data + chunk|, npa);
      OutsideRun(tr, lo, hi, eva, |data|, |chunk|, npa);
    }
  }

  lemma NarrowerRange(tr: Map, eva: nat, n: nat, n': nat, npa: Npa)
    requires n <= n' && !InRange(tr, eva, n', npa)
    ensures !InRange(tr, eva, n, npa)
  {
  }

  lemma OutsideRun(tr: Map, lo: nat, hi: nat, eva: nat, n: nat, x: nat, npa: Npa)
    requires Moves(tr, lo, hi) && lo <= eva + n < hi && tr(eva + n).Ok? && x <= tr(eva + n).size
    requires !InRange(tr, eva, n + x, npa)
    ensures !InRun(tr(eva + n).npa, x, npa)
  {
    var base := tr(eva + n).npa;
    forall k: nat | k < x ensures Plus(base, k) != npa {
      assert tr(eva + n + k).npa == Plus(base, k);
    }
  }

  lemma EarlierByteKept(tr: Map, lo: nat, hi: nat, m1: Memory, m2: Memory, e: nat, next: nat, chunk: seq<Byte>)
    requires Lawful(tr, lo, hi) && lo <= e < next < hi && tr(e).Ok? && tr(next).Ok?
    requires |chunk| <= tr(next).size && RunWritten(m1, m2, tr(next).npa, chunk)
    ensures Get(m2, tr(e).npa) == Get(m1, tr(e).npa)
  {
    forall k: nat | k < |chunk| ensures Plus(tr(next).npa, k) != tr(e).npa {
      assert tr(next + k).npa == Plus(tr(next).npa, k);
    }
  }

  // A write keeps a range it does not overlap.
  lemma OtherRangeKept(tr: Map, lo: nat, hi: nat, m0: Memory, m1: Memory, eva: nat, data: seq<Byte>, eva': nat, n: nat)
    requires Apart(tr, lo, hi) && lo <= eva && eva + |data| <= hi && lo <= eva' && eva' + n <= hi
    requires eva + |data| <= eva' || eva' + n <= eva
    requires FlatHolds(tr, m0, eva, data) && OnlyRange(tr, m0, m1, eva', n)
    ensures FlatHolds(tr, m1, eva, data)
  {
    forall e: nat | eva <= e < eva + |data| ensures !InRange(tr, eva', n, tr(e).npa) { }
  }

  lemma WiderRange(tr: Map, m0: Memory, m1: Memory, eva: nat, n: nat, eva': nat, n': nat)
    requires OnlyRange(tr, m0, m1, eva, n) && eva' <= eva && eva + n <= eva' + n'
    ensures OnlyRange(tr, m0, m1, eva', n')
  {
    forall npa | !InRange(tr, eva', n', npa) ensures !InRange(tr, eva, n, npa) { }
  }

  lemma RangesJoin(tr: Map, m0: Memory, m1: Memory, m2: Memory, eva: nat, n: nat)
    requires OnlyRange(tr, m0, m1, eva, n) && OnlyRange(tr, m1, m2, eva, n)
    ensures OnlyRange(tr, m0, m2, eva, n)
  {
    hide Get, InRange;
  }

  // Reading one chunk extends the part of the range that is known.
  lemma ChunkReads(tr: Map, lo: nat, hi: nat, mem: Memory, eva: nat, data: seq<Byte>, chunk: seq<Byte>)
    requires Lawful(tr, lo, hi) && lo <= eva && eva + |data| < hi
    requires FlatHolds(tr, mem, eva, data)
    requires tr(eva + |data|).Ok? && |chunk| <= tr(eva + |data|).size
    requires RunHolds(mem, tr(eva + |data|).npa, chunk)
    ensures FlatHolds(tr, mem, eva, data + chunk)
    ensures eva + |data + chunk| <= hi
  {
    var next := eva + |data|;
    forall e: nat | eva <= e < eva + |data + chunk|
      ensures tr(e).Ok? && Get(mem, tr(e).npa) == (data + chunk)[e - eva]
    {
      if e >= next {
        assert tr(e).npa == Plus(tr(next).npa, e - next);
      }
    }
  }

  // ---------------------------------------------------------------- runs of words

  // One more byte, and one more word, at the end of a run.
  lemma ByteExtends(m0: Memory, m1: Memory, npa: Npa, data: seq<Byte>, b: Byte)
    requires RunWritten(m0, m1, npa, data) && |data| < TWO32 && npa.epa < TWO32
    ensures RunWritten(m0, m1[Plus(npa, |data|) := b], npa, data + [b])
  {
    forall k: nat | k < |data| ensures Plus(npa, k) != Plus(npa, |data|) {
      PlusIsInjective(npa, k, |data|);
    }
    forall m | !InRun(npa, |data| + 1, m) ensures !InRun(npa, |data|, m) && m != Plus(npa, |data|) { }
  }

  lemma PlusPlus(npa: Npa, n: nat, i: nat)
    ensures Plus(Plus(npa, n), i) == Plus(npa, n + i)
  {
  }

  // A word store as four byte stores.
  lemma StoreIsBytes(mem: Memory, npa: Npa, n: nat, b0: Byte, b1: Byte, b2: Byte, b3: Byte)
    ensures Store(mem, Plus(npa, n), Pack(b0, b1, b2, b3))
      == mem[Plus(npa, n) := b0][Plus(npa, n + 1) := b1][Plus(npa, n + 2) := b2][Plus(npa, n + 3) := b3]
  {
    hide Pack, ByteOf, Plus;
    PackRoundTrip(b0, b1, b2, b3);
    PlusPlus(npa, n, 1);
    PlusPlus(npa, n, 2);
    PlusPlus(npa, n, 3);
  }

  lemma WordExtends(m0: Memory, m1: Memory, npa: Npa, data: seq<Byte>, b0: Byte, b1: Byte, b2: Byte, b3: Byte)
    requires RunWritten(m0, m1, npa, data) && |data| + 4 <= TWO32 && npa.epa < TWO32
    ensures RunWritten(m0, Store(m1, Plus(npa, |data|), Pack(b0, b1, b2, b3)), npa, data + [b0, b1, b2, b3])
  {
    hide RunWritten, Pack, ByteOf, Plus, Store;
    var n := |data|;
    StoreIsBytes(m1, npa, n, b0, b1, b2, b3);
    var a1 := m1[Plus(npa, n) := b0];
    var a2 := a1[Plus(npa, n + 1) := b1];
    var a3 := a2[Plus(npa, n + 2) := b2];
    ByteExtends(m0, m1, npa, data, b0);
    ByteExtends(m0, a1, npa, data + [b0], b1);
    ByteExtends(m0, a2, npa, data + [b0] + [b1], b2);
    ByteExtends(m0, a3, npa, data + [b0] + [b1] + [b2], b3);
    assert data + [b0] + [b1] + [b2] + [b3] == data + [b0, b1, b2, b3];
  }

  lemma PlusIsInjective(npa: Npa, j: nat, k: nat)
    requires j < k < TWO32 && npa.epa < TWO32
    ensures Plus(npa, j) != Plus(npa, k)
  {
  }

  lemma EmptyRun(mem: Memory, npa: Npa)
    ensures RunWritten(mem, mem, npa, []) && RunHolds(mem, npa, [])
  {
  }

  lemma PlusIsWord(npa: Npa, n: nat)
    requires n % 4 == 0
    ensures Plus(npa, n).epa % 4 == npa.epa % 4
  {
  }

  // Reading a range back after it was written gives the data that was written.
  lemma ReadReturnsWritten(tr: Map, before: Memory, after: Memory, eva: nat, data: seq<Byte>, read: seq<Byte>)
    requires FlatWritten(tr, before, after, eva, data) && FlatHolds(tr, after, eva, read) && |data| == |read|
    ensures read == data
  {
    hide Get;
    forall i | 0 <= i < |data| ensures read[i] == data[i] {
      assert Get(after, tr(eva + i).npa) == data[i];
    }
  }

  // ---------------------------------------------------------------- word loops

  // Buffers must be word aligned and whole words long.
  function CheckArgs(hostAddr: nat, size: nat): Status {
    if hostAddr % 4 != 0 then NoImpl else if size % 4 != 0 then NoImpl else Success
  }

  // When a copy of a run succeeds on a reliable network.
  ghost predicate CanRun(npa: Npa, hostAddr: nat, size: nat) {
    hostAddr % 4 == 0 && size % 4 == 0 && (size == 0 || npa.epa % 4 == 0)
  }

  /** Write a run of bytes, one word at a time. */
  method WriteMem(fabric: Fabric, npa: Npa, hostAddr: nat, data: seq<Byte>) returns (s: Status, ghost done: nat)
    requires |data| < TWO32 && npa.epa < TWO32
    modifies fabric`mem
    ensures done <= |data| && RunWritten(old(fabric.mem), fabric.mem, npa, data[..done])
    ensures s == Success ==> done == |data| && CanRun(npa, hostAddr, |data|)
    ensures fabric.reliable && CanRun(npa, hostAddr, |data|) ==> s == Success
    ensures done > 0 ==> npa.epa % 4 == 0
  {
    hide RunWritten, Store, Pack, Plus;
    done := 0;
    EmptyRun(fabric.mem, npa);
    assert data[..0] == [];
    s := CheckArgs(hostAddr, |data|);
    if s != Success {
      return;
    }
    for i := 0 to |data| / 4
      invariant done == 4 * i && s == Success
      invariant RunWritten(old(fabric.mem), fabric.mem, npa, data[..done])
      invariant i > 0 ==> npa.epa % 4 == 0
    {
      var n := 4 * i;
      PlusIsWord(npa, n);
      WordExtends(old(fabric.mem), fabric.mem, npa, data[..n], data[n], data[n + 1], data[n + 2], data[n + 3]);
      s := fabric.WriteWord(Plus(npa, n), Pack(data[n], data[n + 1], data[n + 2], data[n + 3]));
      if s != Success {
        return;
      }
      assert data[..n + 4] == data[..n] + [data[n], data[n + 1], data[n + 2], data[n + 3]];
      done := done + 4;
    }
    assert data[..done] == data;
  }

  /** Set a run of bytes to a value, one word at a time. */
  method Memset(fabric: Fabric, npa: Npa, val: Byte, size: nat) returns (s: Status, ghost done: nat)
    requires size < TWO32 && npa.epa < TWO32
    modifies fabric`mem
    ensures done <= size && RunWritten(old(fabric.mem), fabric.mem, npa, Fill(val, done))
    ensures s == Success ==> done == size && CanRun(npa, 0, size)
    ensures fabric.reliable && CanRun(npa, 0, size) ==> s == Success
  {
    hide RunWritten, Store, Pack, Plus;
    done := 0;
    EmptyRun(fabric.mem, npa);
    assert Fill(val, 0) == [];
    s := CheckArgs(0, size);
    if s != Success {
      return;
    }
    for i := 0 to size / 4
      invariant done == 4 * i && s == Success
      invariant RunWritten(old(fabric.mem), fabric.mem, npa, Fill(val, done))
      invariant i > 0 ==> npa.epa % 4 == 0
    {
      var n := 4 * i;
      PlusIsWord(npa, n);
      WordExtends(old(fabric.mem), fabric.mem, npa, Fill(val, n), val, val, val, val);
      s := fabric.WriteWord(Plus(npa, n), Pack(val, val, val, val));
      if s != Success {
        return;
      }
      FillMore(val, n, [val, val, val, val]);
      done := done + 4;
    }
  }

  ghost function Fill(val: Byte, n: nat): seq<Byte> { seq(n, i => val) }

  lemma FillMore(val: Byte, n: nat, more: seq<Byte>)
    requires forall b :: b in more ==> b == val
    ensures Fill(val, n) + more == Fill(val, n + |more|)
  {
    forall i | 0 <= i < n + |more| ensures (Fill(val, n) + more)[i] == val {
      if i >= n { assert more[i - n] in more; }
    }
  }

  /** Read a run of bytes with the pipelined engine. */
  method ReadMem(fabric: Fabric, npa: Npa, hostAddr: nat, size: nat, nIds: nat) returns (s: Status, data: seq<Byte>)
    requires fabric.pending == map[] && nIds >= 1 && size < TWO32 && npa.epa < TWO32
    modifies fabric`pending, fabric`busyLeft
    ensures s == Success ==>
      && |data| == size && RunHolds(fabric.mem, npa, data) && fabric.pending == map[] && CanRun(npa, hostAddr, size)
    ensures fabric.reliable && CanRun(npa, hostAddr, size) ==> s == Success
  {
    hide Pack, Plus, Word, ByteOf, RunHolds;
    data := [];
    EmptyRun(fabric.mem, npa);
    s := CheckArgs(hostAddr, size);
    if s != Success {
      return;
    }
    var nWords := size / 4;
    var words := new nat[nWords];
    var addrs := seq(nWords, (i: nat) requires i < nWords => Plus(npa, 4 * i));
    forall i | 0 <= i < nWords ensures addrs[i].epa % 4 == npa.epa % 4 { PlusIsWord(npa, 4 * i); }
    s := ReadMemInternal(fabric, addrs, words, nIds);
    if s != Success {
      return;
    }
    assert nWords > 0 ==> addrs[0].epa % 4 == 0;
    for i := 0 to nWords
      invariant |data| == 4 * i && RunHolds(fabric.mem, npa, data) && fabric.pending == map[]
      invariant forall j :: 0 <= j < nWords ==> words[j] == Word(fabric.mem, addrs[j])
    {
      var w := words[i];
      WordBytes(fabric.mem, npa, data);
      data := data + [ByteOf(w, 0), ByteOf(w, 1), ByteOf(w, 2), ByteOf(w, 3)];
    }
  }

  lemma WordBytes(mem: Memory, npa: Npa, data: seq<Byte>)
    requires RunHolds(mem, npa, data)
    ensures var w := Word(mem, Plus(npa, |data|));
      RunHolds(mem, npa, data + [ByteOf(w, 0), ByteOf(w, 1), ByteOf(w, 2), ByteOf(w, 3)])
  {
    hide Pack, ByteOf, Plus, Get;
    var at, n := Plus(npa, |data|), |data|;
    PackRoundTrip(Get(mem, at), Get(mem, Plus(at, 1)), Get(mem, Plus(at, 2)), Get(mem, Plus(at, 3)));
    PlusPlus(npa, n, 1);
    PlusPlus(npa, n, 2);
    PlusPlus(npa, n, 3);
    var more := data + [Get(mem, at), Get(mem, Plus(at, 1)), Get(mem, Plus(at, 2)), Get(mem, Plus(at, 3))];
    forall k: nat | k < |more| ensures Get(mem, Plus(npa, k)) == more[k] {
      if k >= n { assert k == n || k == n + 1 || k == n + 2 || k == n + 3; }
    }
  }

  // ---------------------------------------------------------------- chunk loops

  // When a copy of n bytes between a host buffer and a range succeeds.
  ghost predicate CanCopy(tr: Map, eva: nat, hostAddr: nat, n: nat) {
    n == 0 || (hostAddr % 4 == 0 && eva % 4 == 0 && n % 4 == 0 && Mapped(tr, eva, n))
  }

  // A loop has copied n bytes.
  ghost predicate SoFar(eva: nat, hostAddr: nat, n: nat) {
    n % 4 == 0 && (n > 0 ==> hostAddr % 4 == 0 && eva % 4 == 0)
  }

  function ChunkLength(t: Translation, left: nat): nat
    requires t.Ok?
  {
    if left < t.size then left else t.size
  }

  // What a loop finds at the next address of a range: a chunk that lies in the
  // window and is not empty.
  lemma NextAddress(tr: Map, lo: nat, hi: nat, eva: nat, n: nat, total: nat)
    requires Lawful(tr, lo, hi) && MayStart(tr, lo, hi, eva, total)
    requires n < total && eva + n <= hi && (n > 0 ==> eva % 4 == 0)
    ensures eva + n < TWO32 && (eva + n) % TWO32 == eva + n
    ensures tr(eva + n).Ok? ==>
      && lo <= eva + n < hi && tr(eva + n).npa.epa < TWO32 && tr(eva + n).npa.epa % 4 == (eva + n) % 4
      && tr(eva + n).size > 0 && (eva + n + tr(eva + n).size) % 4 == 0
  {
    hide Moves, Apart;
  }

  // The chunk can be copied if the whole range can, and then the copy can go on.
  lemma NextChunk(tr: Map, lo: nat, hi: nat, eva: nat, hostAddr: nat, n: nat, total: nat)
    requires Lawful(tr, lo, hi) && MayStart(tr, lo, hi, eva, total)
    requires n < total && eva + n <= hi && SoFar(eva, hostAddr, n)
    ensures eva + n < TWO32 && (eva + n) % TWO32 == eva + n
    ensures CanCopy(tr, eva, hostAddr, total) ==> tr(eva + n).Ok?
    ensures tr(eva + n).Ok? ==> var x := ChunkLength(tr(eva + n), total - n); var npa := tr(eva + n).npa;
      && lo <= eva + n < hi && npa.epa < TWO32 && npa.epa % 4 == (eva + n) % 4 && 0 < x <= tr(eva + n).size
      && (CanCopy(tr, eva, hostAddr, total) ==> CanRun(npa, hostAddr + n, x))
      && (CanRun(npa, hostAddr + n, x) ==> SoFar(eva, hostAddr, n + x))
  {
    NextAddress(tr, lo, hi, eva, n, total);
    hide Lawful, MayStart;
  }

  lemma NullBuffer(eva: nat, n: nat, npa: Npa, x: nat)
    requires SoFar(eva, 0, n)
    ensures CanRun(npa, n, x) == CanRun(npa, 0, x)
  {
  }

  lemma StartCopy(eva: nat, hostAddr: nat)
    ensures SoFar(eva, hostAddr, 0)
  {
  }

  lemma AllCopied(tr: Map, eva: nat, hostAddr: nat, n: nat)
    requires SoFar(eva, hostAddr, n) && Mapped(tr, eva, n)
    ensures CanCopy(tr, eva, hostAddr, n)
  {
  }

  lemma HeldIsMapped(tr: Map, mem: Memory, eva: nat, data: seq<Byte>)
    requires FlatHolds(tr, mem, eva, data)
    ensures Mapped(tr, eva, |data|)
  {
  }

  lemma WrittenIsMapped(tr: Map, before: Memory, after: Memory, eva: nat, data: seq<Byte>)
    requires FlatWritten(tr, before, after, eva, data)
    ensures Mapped(tr, eva, |data|)
  {
  }

  /** Write the data to the range, chunk by chunk. */
  method EvaWrite(tr: Map, fabric: Fabric, eva: nat, hostAddr: nat, data: seq<Byte>, ghost lo: nat, ghost hi: nat)
    returns (s: Status, ghost done: nat)
    requires Lawful(tr, lo, hi) && MayStart(tr, lo, hi, eva, |data|) && |data| < TWO32
    modifies fabric`mem
    ensures done <= |data| && FlatWritten(tr, old(fabric.mem), fabric.mem, eva, data[..done])
    ensures s == Success ==> done == |data| && CanCopy(tr, eva, hostAddr, |data|)
    ensures fabric.reliable && CanCopy(tr, eva, hostAddr, |data|) ==> s == Success
    ensures done > 0 ==> eva % 4 == 0
  {
    hide Lawful, FlatWritten, RunWritten, CanRun, CanCopy, SoFar;
    s := Success;
    done := 0;
    StartCopy(eva, hostAddr);
    var n := 0;
    EmptyRange(tr, fabric.mem, eva);
    assert data[..0] == [];
    while n < |data|
      invariant n <= |data| && done == n && s == Success && eva + n <= hi
      invariant FlatWritten(tr, old(fabric.mem), fabric.mem, eva, data[..n])
      invariant SoFar(eva, hostAddr, n) && (n > 0 ==> eva % 4 == 0)
      decreases |data| - n
    {
      NextChunk(tr, lo, hi, eva, hostAddr, n, |data|);
      var t := tr((eva + n) % TWO32);
      if t.Err? {
        return TranslationError, n;
      }
      var x := ChunkLength(t, |data| - n);
      ghost var before := fabric.mem;
      ghost var m;
      s, m := WriteMem(fabric, t.npa, hostAddr + n, data[n..n + x]);
      ChunkExtends(tr, lo, hi, old(fabric.mem), before, fabric.mem, eva, data[..n], data[n..n + x][..m]);
      assert data[..n] + data[n..n + x][..m] == data[..n + m];
      done := n + m;
      if s != Success {
        return;
      }
      n := n + x;
    }
    assert n == |data|;
    assert data[..n] == data;
    WrittenIsMapped(tr, old(fabric.mem), fabric.mem, eva, data);
    AllCopied(tr, eva, hostAddr, n);
  }

  /** Set the range to a value, chunk by chunk. */
  method EvaMemset(tr: Map, fabric: Fabric, eva: nat, val: Byte, size: nat, ghost lo: nat, ghost hi: nat)
    returns (s: Status, ghost done: nat)
    requires Lawful(tr, lo, hi) && MayStart(tr, lo, hi, eva, size) && size < TWO32
    modifies fabric`mem
    ensures done <= size && FlatWritten(tr, old(fabric.mem), fabric.mem, eva, Fill(val, done))
    ensures s == Success ==> done == size && CanCopy(tr, eva, 0, size)
    ensures fabric.reliable && CanCopy(tr, eva, 0, size) ==> s == Success
  {
    hide Lawful, FlatWritten, RunWritten, CanRun, CanCopy, SoFar;
    s := Success;
    done := 0;
    StartCopy(eva, 0);
    var n := 0;
    EmptyRange(tr, fabric.mem, eva);
    assert Fill(val, 0) == [];
    while n < size
      invariant n <= size && done == n && s == Success && eva + n <= hi
      invariant FlatWritten(tr, old(fabric.mem), fabric.mem, eva, Fill(val, n))
      invariant SoFar(eva, 0, n)
      decreases size - n
    {
      NextChunk(tr, lo, hi, eva, 0, n, size);
      var t := tr((eva + n) % TWO32);
      if t.Err? {
        return TranslationError, n;
      }
      var x := ChunkLength(t, size - n);
      ghost var before := fabric.mem;
      ghost var m;
      NullBuffer(eva, n, t.npa, x);
      s, m := Memset(fabric, t.npa, val, x);
      ChunkExtends(tr, lo, hi, old(fabric.mem), before, fabric.mem, eva, Fill(val, n), Fill(val, m));
      FillMore(val, n, Fill(val, m));
      done := n + m;
      if s != Success {
        return;
      }
      n := n + x;
    }
    WrittenIsMapped(tr, old(fabric.mem), fabric.mem, eva, Fill(val, n));
    AllCopied(tr, eva, 0, n);
  }

  /** Read the range, chunk by chunk. */
  method EvaRead(tr: Map, fabric: Fabric, eva: nat, hostAddr: nat, size: nat, nIds: nat, ghost lo: nat, ghost hi: nat)
    returns (s: Status, data: seq<Byte>)
    requires Lawful(tr, lo, hi) && MayStart(tr, lo, hi, eva, size) && size < TWO32
    requires fabric.pending == map[] && nIds >= 1
    modifies fabric`pending, fabric`busyLeft
    ensures s == Success ==>
      |data| == size && FlatHolds(tr, fabric.mem, eva, data) && fabric.pending == map[] && CanCopy(tr, eva, hostAddr, size)
    ensures fabric.reliable && CanCopy(tr, eva, hostAddr, size) ==> s == Success
  {
    hide Lawful, FlatHolds, RunHolds, CanRun, CanCopy, SoFar;
    s := Success;
    data := [];
    StartCopy(eva, hostAddr);
    NothingHeld(tr, fabric.mem, eva);
    while |data| < size
      invariant |data| <= size && s == Success && eva + |data| <= hi && fabric.pending == map[]
      invariant FlatHolds(tr, fabric.mem, eva, data)
      invariant SoFar(eva, hostAddr, |data|)
      decreases size - |data|
    {
      var n := |data|;
      NextChunk(tr, lo, hi, eva, hostAddr, n, size);
      var t := tr((eva + n) % TWO32);
      if t.Err? {
        return TranslationError, data;
      }
      var x := ChunkLength(t, size - n);
      var chunk;
      s, chunk := ReadMem(fabric, t.npa, hostAddr + n, x, nIds);
      if s != Success {
        return;
      }
      ChunkReads(tr, lo, hi, fabric.mem, eva, data, chunk);
      data := data + chunk;
    }
    HeldIsMapped(tr, fabric.mem, eva, data);
    AllCopied(tr, eva, hostAddr, |data|);
  }

  lemma NothingHeld(tr: Map, mem: Memory, eva: nat)
    ensures FlatHolds(tr, mem, eva, [])
  {
  }
}
