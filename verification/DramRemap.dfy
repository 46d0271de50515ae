// The DRAM simulator's address mapping: five bit fields of a channel address are
// put side by side in a fixed order.
module DramRemap {
  import opened Bits

  /** A field of an address: its width and its lowest bit. */
  datatype Field = Field(bits: nat, bitidx: nat)

  datatype MemsysId = DramSim3 | Hbm2 | Other

  datatype Memsys = Memsys(id: MemsysId, ro: Field, bg: Field, ba: Field, co: Field, byteOffset: Field)

  /** The value of a field. The mask is a 32-bit number, so this holds for widths of
      at most 30 bits; configurations admit widths of at most 15. */
  function Get(f: Field, address: nat): nat { And(Shr(address, f.bitidx), Pow2(f.bits) - 1) }

  // A 64-bit left shift.
  function Shl64(a: nat, k: nat): nat { Low(Shl(a, k), 64) }

  function MapDramSim3(m: Memsys, address: nat): nat {
    var d := Or(0, Get(m.ro, address));
    var d := Or(Shl64(d, m.bg.bits), Get(m.bg, address));
    var d := Or(Shl64(d, m.ba.bits), Get(m.ba, address));
    var d := Or(Shl64(d, m.co.bits), Get(m.co, address));
    Or(Shl64(d, m.byteOffset.bits), Get(m.byteOffset, address))
  }

  function MapToPhysical(m: Memsys, address: nat): nat {
    match m.id
    case DramSim3 => MapDramSim3(m, address)
    case Hbm2 => MapDramSim3(m, address)
    case Other => address
  }

  // ---------------------------------------------------------------- fields in a row

  // The fields in the order of the mapped address, lowest first.
  ghost function Order(m: Memsys): seq<Field> { [m.byteOffset, m.co, m.ba, m.bg, m.ro] }

  ghost function Width(fs: seq<Field>): nat { if fs == [] then 0 else fs[0].bits + Width(fs[1..]) }

  /** The fields of an address side by side, the first one lowest. */
  ghost function Joined(fs: seq<Field>, a: nat): nat {
    if fs == [] then 0 else Low(Shr(a, fs[0].bitidx), fs[0].bits) + Shl(Joined(fs[1..], a), fs[0].bits)
  }

  lemma {:induction false} JoinedIsBelow(fs: seq<Field>, a: nat)
    ensures Joined(fs, a) < Pow2(Width(fs))
  {
    hide Shr, Low, Shl, Pow2;
    if fs == [] {
      Pow2Positive(0);
    } else {
      JoinedIsBelow(fs[1..], a);
      SumBelow(Low(Shr(a, fs[0].bitidx), fs[0].bits), Joined(fs[1..], a), fs[0].bits, Width(fs[1..]));
    }
  }

  // One step of the mapping: a shift and an or put one more field below.
  lemma OneField(fs: seq<Field>, a: nat)
    requires fs != [] && Width(fs) <= 64
    ensures Or(Shl64(Joined(fs[1..], a), fs[0].bits), Get(fs[0], a)) == Joined(fs, a)
  {
    hide Shr, Low, Shl, Pow2, Or, And;
    var f, high := fs[0], Joined(fs[1..], a);
    var low := Low(Shr(a, f.bitidx), f.bits);
    AndMask(Shr(a, f.bitidx), f.bits);
    JoinedIsBelow(fs[1..], a);
    Pow2Positive(f.bits);
    SumBelow(0, high, f.bits, Width(fs[1..]));
    Pow2Monotone(Width(fs), 64);
    LowIsSmall(Shl(high, f.bits), 64);
    OrCommutes(Shl(high, f.bits), low);
    OrDisjoint(low, high, f.bits);
  }

  lemma MapIsJoined(m: Memsys, a: nat)
    requires Width(Order(m)) <= 64
    ensures MapDramSim3(m, a) == Joined(Order(m), a)
    ensures MapToPhysical(m, a) == if m.id == Other then a else Joined([m.byteOffset, m.co, m.ba, m.bg, m.ro], a)
  {
    hide Shr, Low, Shl, Pow2, Or, And, Get, Shl64;
    var fs := Order(m);
    assert fs[1..] == [m.co, m.ba, m.bg, m.ro] && fs[2..] == [m.ba, m.bg, m.ro] && fs[3..] == [m.bg, m.ro] && fs[4..] == [m.ro];
    Widths(fs);
    TopField(m.ro, a);
    OneField(fs[3..], a);
    OneField(fs[2..], a);
    OneField(fs[1..], a);
    OneField(fs, a);
  }

  lemma Widths(fs: seq<Field>)
    requires |fs| == 5
    ensures Width(fs[1..]) <= Width(fs) && Width(fs[2..]) <= Width(fs) && Width(fs[3..]) <= Width(fs)
    ensures fs[1..][1..] == fs[2..] && fs[2..][1..] == fs[3..] && fs[3..][1..] == fs[4..]
  {
    assert fs[1..][1..] == fs[2..] && fs[2..][1..] == fs[3..];
  }

  lemma TopField(f: Field, a: nat)
    ensures Or(0, Get(f, a)) == Joined([f], a)
  {
    hide Shr, Low, Pow2, Or, And;
    AndMask(Shr(a, f.bitidx), f.bits);
    OrZero(Get(f, a));
    assert [f][1..] == [];
    ZeroShift(f.bits);
  }

  // ---------------------------------------------------------------- tilings

  // Fields one after another, covering bits lo .. hi - 1.
  ghost predicate Chain(fs: seq<Field>, lo: nat, hi: nat) {
    if fs == [] then lo == hi else fs[0].bitidx == lo && Chain(fs[1..], lo + fs[0].bits, hi)
  }

  // The fields are disjoint and cover bits 0 .. n - 1: in some order, they are
  // one after another.
  ghost predicate Tiles(fs: seq<Field>, n: nat) { exists gs :: multiset(gs) == multiset(fs) && Chain(gs, 0, n) }

  lemma {:induction false} ChainWidth(fs: seq<Field>, lo: nat, hi: nat)
    requires Chain(fs, lo, hi)
    ensures lo + Width(fs) == hi
  {
    if fs != [] { ChainWidth(fs[1..], lo + fs[0].bits, hi); }
  }

  // Fields in order keep the address.
  lemma {:induction false} ChainKeeps(fs: seq<Field>, lo: nat, hi: nat, a: nat)
    requires Chain(fs, lo, hi) && lo <= hi
    ensures Joined(fs, a) == Low(Shr(a, lo), hi - lo)
  {
    hide Shr, Low, Shl, Pow2;
    ChainWidth(fs, lo, hi);
    if fs == [] {
      NoBits(Shr(a, lo));
    } else {
      var k := fs[0].bits;
      ChainKeeps(fs[1..], lo + k, hi, a);
      ShrTwice(a, lo, k);
      LowSplit(Shr(a, lo), k, hi - lo - k);
    }
  }

  lemma NoBits(a: nat)
    ensures Low(a, 0) == 0
  {
  }

  lemma LowSplit(a: nat, j: nat, k: nat)
    ensures Low(a, j + k) == Low(a, j) + Shl(Low(Shr(a, j), k), j)
  {
    hide Shr, Low, Shl, Pow2;
    LowShr(a, j);
    LowOfSum(Low(a, j), Shr(a, j), j, k);
  }

  // ---------------------------------------------------------------- taking it back

  // A field of an address, in place.
  ghost function Piece(f: Field, a: nat): nat { Shl(Low(Shr(a, f.bitidx), f.bits), f.bitidx) }

  ghost function Pieces(fs: seq<Field>, a: nat): nat { if fs == [] then 0 else Piece(fs[0], a) + Pieces(fs[1..], a) }

  /** The inverse mapping: fields of the mapped address, put back in place. */
  ghost function PutBack(fs: seq<Field>, b: nat): nat {
    if fs == [] then 0 else Shl(Low(b, fs[0].bits), fs[0].bitidx) + PutBack(fs[1..], Shr(b, fs[0].bits))
  }

  lemma {:induction false} PutBackJoined(fs: seq<Field>, a: nat)
    ensures PutBack(fs, Joined(fs, a)) == Pieces(fs, a)
  {
    hide Shr, Low, Shl, Pow2;
    if fs != [] {
      PutBackJoined(fs[1..], a);
      LowShrUnique(Low(Shr(a, fs[0].bitidx), fs[0].bits), Joined(fs[1..], a), fs[0].bits);
    }
  }

  lemma {:induction false} ChainPieces(fs: seq<Field>, lo: nat, hi: nat, a: nat)
    requires Chain(fs, lo, hi)
    ensures lo <= hi && Pieces(fs, a) == Shl(Low(Shr(a, lo), hi - lo), lo)
  {
    hide Shr, Low, Shl, Pow2;
    ChainWidth(fs, lo, hi);
    if fs == [] {
      NoBits(Shr(a, lo));
      ZeroShift(lo);
    } else {
      var k := fs[0].bits;
      ChainPieces(fs[1..], lo + k, hi, a);
      ShrTwice(a, lo, k);
      LowSplit(Shr(a, lo), k, hi - lo - k);
      var rest := Low(Shr(a, lo + k), hi - lo - k);
      ShlSum(rest, k, lo);
      ShlOfSum(Low(Shr(a, lo), k), Shl(rest, k), lo);
    }
  }

  // Sums over the fields do not depend on their order.
  lemma {:induction false} TakeOut(fs: seq<Field>, i: nat, a: nat)
    requires i < |fs|
    ensures Pieces(fs, a) == Piece(fs[i], a) + Pieces(fs[..i] + fs[i + 1..], a)
    ensures Width(fs) == fs[i].bits + Width(fs[..i] + fs[i + 1..])
  {
    hide Piece;
    var rest := fs[..i] + fs[i + 1..];
    if i == 0 {
      assert rest == fs[1..];
    } else {
      TakeOut(fs[1..], i - 1, a);
      assert rest[1..] == fs[1..][..i - 1] + fs[1..][i..];
    }
  }

  lemma {:induction false} SumsOfPermutation(fs: seq<Field>, gs: seq<Field>, a: nat)
    requires multiset(fs) == multiset(gs)
    ensures Pieces(fs, a) == Pieces(gs, a) && Width(fs) == Width(gs)
    decreases |fs|
  {
    hide Piece;
    assert |fs| == |multiset(fs)| == |multiset(gs)| == |gs|;
    if fs == [] {
      assert gs == [];
    } else {
      assert fs[0] in multiset(gs);
      var i :| 0 <= i < |gs| && gs[i] == fs[0];
      RestOfPermutation(fs, gs, i);
      TakeOut(gs, i, a);
      SumsOfPermutation(fs[1..], gs[..i] + gs[i + 1..], a);
    }
  }

  lemma RestOfPermutation(fs: seq<Field>, gs: seq<Field>, i: nat)
    requires multiset(fs) == multiset(gs) && i < |gs| && fs != [] && gs[i] == fs[0]
    ensures multiset(fs[1..]) == multiset(gs[..i] + gs[i + 1..])
  {
    assert fs == [fs[0]] + fs[1..] && gs == gs[..i] + [gs[i]] + gs[i + 1..];
    assert multiset(fs[1..]) == multiset(fs) - multiset{fs[0]};
  }

  // ---------------------------------------------------------------- main results

  // Below 2^n, the mapping stays below 2^n and can be undone.
  lemma MapCanBeUndone(m: Memsys, n: nat, a: nat)
    requires Tiles(Order(m), n) && n <= 64 && a < Pow2(n)
    ensures MapDramSim3(m, a) < Pow2(n) && PutBack(Order(m), MapDramSim3(m, a)) == a
    ensures m.id != Other ==> MapToPhysical(m, a) < Pow2(n) && PutBack(Order(m), MapToPhysical(m, a)) == a
  {
    hide Shr, Low, Shl, Pow2, MapDramSim3, Tiles, Joined, PutBack, Pieces, Width;
    var fs := Order(m);
    hide Order;
    PiecesOfTiling(fs, n, a);
    MapIsJoined(m, a);
    JoinedIsBelow(fs, a);
    PutBackJoined(fs, a);
    Whole(a, n);
  }

  lemma PiecesOfTiling(fs: seq<Field>, n: nat, a: nat)
    requires Tiles(fs, n)
    ensures Width(fs) == n && Pieces(fs, a) == Shl(Low(Shr(a, 0), n), 0)
  {
    hide Shr, Low, Shl, Chain, Pieces, Width;
    var gs :| multiset(gs) == multiset(fs) && Chain(gs, 0, n);
    SumsOfPermutation(fs, gs, a);
    ChainWidth(gs, 0, n);
    ChainPieces(gs, 0, n, a);
  }

  lemma Whole(a: nat, n: nat)
    requires a < Pow2(n)
    ensures Shl(Low(Shr(a, 0), n), 0) == a
  {
    LowIsSmall(a, n);
  }

  // With the fields already in the order of the mapped address, nothing changes.
  lemma InOrderIsIdentity(m: Memsys, n: nat, a: nat)
    requires Chain(Order(m), 0, n) && n <= 64 && a < Pow2(n)
    ensures MapToPhysical(m, a) == a
  {
    hide Shr, Low, Shl, Pow2, MapDramSim3, Chain, Joined;
    ChainWidth(Order(m), 0, n);
    MapIsJoined(m, a);
    ChainKeeps(Order(m), 0, n, a);
    Whole(a, n);
    OfZeroShifts(a, n);
  }

  lemma OfZeroShifts(a: nat, n: nat)
    ensures Shr(a, 0) == a && Shl(Low(a, n), 0) == Low(a, n)
  {
  }

  // The first k values of the mapping are k different numbers.
  ghost function Image(m: Memsys, k: nat): set<nat> {
    if k == 0 then {} else Image(m, k - 1) + {MapDramSim3(m, k - 1)}
  }

  // One of the first k addresses is mapped to b.
  ghost predicate Reached(m: Memsys, k: nat, b: nat) { exists a: nat :: a < k && MapDramSim3(m, a) == b }

  ghost predicate Hit(m: Memsys, n: nat, b: nat) { exists a: nat :: a < Pow2(n) && MapToPhysical(m, a) == b }

  lemma {:induction false} ImageIsLarge(m: Memsys, n: nat, k: nat)
    requires Tiles(Order(m), n) && n <= 64 && k <= Pow2(n)
    ensures |Image(m, k)| == k
    ensures forall b :: b in Image(m, k) ==> b < Pow2(n) && Reached(m, k, b)
  {
    hide MapDramSim3, Tiles, Pow2;
    if k > 0 {
      ImageIsLarge(m, n, k - 1);
      MapCanBeUndone(m, n, k - 1);
      forall a: nat | a < k - 1 ensures MapDramSim3(m, a) != MapDramSim3(m, k - 1) { MapCanBeUndone(m, n, a); }
    }
  }

  ghost function UpTo(k: nat): set<nat> { if k == 0 then {} else UpTo(k - 1) + {k - 1} }

  lemma {:induction false} SizeOfUpTo(k: nat)
    ensures |UpTo(k)| == k && forall b: nat :: b in UpTo(k) <==> b < k
  {
    if k > 0 {
      SizeOfUpTo(k - 1);
    }
  }

  lemma SubsetOfSameSize(s: set<nat>, t: set<nat>)
    requires s <= t && |s| == |t|
    ensures s == t
  {
    assert t == s + (t - s);
  }

  // The mapping is a permutation of the addresses below 2^n: it stays there, no
  // two addresses meet, and every address is reached.
  lemma MappingIsPermutation(m: Memsys, n: nat)
    requires Tiles(Order(m), n) && n <= 64
    ensures forall a: nat :: a < Pow2(n) ==> MapToPhysical(m, a) < Pow2(n)
    ensures forall a: nat, a': nat :: a < Pow2(n) && a' < Pow2(n) && MapToPhysical(m, a) == MapToPhysical(m, a') ==> a == a'
    ensures forall b: nat :: b < Pow2(n) ==> Hit(m, n, b)
  {
    hide MapDramSim3, Tiles, Pow2;
    forall a: nat | a < Pow2(n) ensures MapDramSim3(m, a) < Pow2(n) && PutBack(Order(m), MapDramSim3(m, a)) == a {
      MapCanBeUndone(m, n, a);
    }
    ImageIsLarge(m, n, Pow2(n));
    SizeOfUpTo(Pow2(n));
    InUpTo(m, Pow2(n), Pow2(n));
    SubsetOfSameSize(Image(m, Pow2(n)), UpTo(Pow2(n)));
    forall b: nat | b < Pow2(n) ensures Hit(m, n, b) {
      if m.id == Other {
        assert MapToPhysical(m, b) == b;
      } else {
        assert b in UpTo(Pow2(n));
        var a: nat :| a < Pow2(n) && MapDramSim3(m, a) == b;
        assert MapToPhysical(m, a) == b;
      }
    }
  }

  lemma InUpTo(m: Memsys, k: nat, n: nat)
    requires forall b :: b in Image(m, k) ==> b < n
    ensures Image(m, k) <= UpTo(n)
  {
    hide Image;
    SizeOfUpTo(n);
  }
}
