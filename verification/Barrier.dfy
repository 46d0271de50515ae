// The hardware-barrier configuration: each tile of a group computes one control
// word with its output direction and the inputs it waits for.
module Barrier {

  datatype Tile = Tile(x: int, y: int)
  datatype Shape = Shape(tx: int, ty: int)

  // Direction codes: an output field holds one of them, and input bit d enables
  // the input from direction d.
  const P: bv32 := 0
  const W: bv32 := 1
  const E: bv32 := 2
  const N: bv32 := 3
  const S: bv32 := 4
  const RW: bv32 := 5
  const RE: bv32 := 6
  const ROOT: bv32 := 7

  function Center(s: Shape): Tile { Tile(s.tx / 2, s.ty / 2) }

  ghost predicate ValidShape(s: Shape) { s.tx >= 1 && s.ty >= 1 }

  predicate InGroup(s: Shape, t: Tile) { 0 <= t.x < s.tx && 0 <= t.y < s.ty }

  // ---------------------------------------------------------------- the word

  /** The direction a tile sends to: along its row towards the centre column in
      hops of r or 1, then along the centre column towards the root. */
  function Output(r: int, t: Tile, c: Tile): bv32 {
    if t.x <= c.x - r then RE
    else if t.x < c.x && t.x > c.x - r then E
    else if t.x == c.x then (if t.y < c.y then S else if t.y == c.y then ROOT else N)
    else if t.x > c.x && t.x < c.x + r then W
    else RW
  }

  /** The control word of tile t in a group of shape s, with ruche factor r. */
  function CsrVal(r: int, t: Tile, s: Shape): bv32 {
    var c := Center(s);
    var val: bv32 := 1;
    var val := val | (Output(r, t, c) << 16);
    var val := if (t.x == c.x - 1 || t.x == c.x) && t.x > 0 then val | (1 << 1) else val;
    var val := if t.x - r >= 0 && t.x <= c.x then val | (1 << 5) else val;
    var val := if (t.x == c.x + 1 || t.x == c.x) && t.x < s.tx - 1 then val | (1 << 2) else val;
    var val := if t.x + r < s.tx && t.x >= c.x then val | (1 << 6) else val;
    var val := if t.x == c.x && t.y > 0 && t.y <= c.y then val | (1 << 3) else val;
    if t.x == c.x && t.y < s.ty - 1 && t.y >= c.y then val | (1 << 4) else val
  }

  /** What the hardware reads from a control word. */
  function OutDir(val: bv32): bv32 { (val >> 16) & 7 }

  predicate Enabled(val: bv32, d: bv32)
    requires d <= 7
  {
    (val >> d) & 1 == 1
  }

  // The fields of the word do not disturb each other.
  lemma FieldsAreSeparate(out: bv32, w: bool, rw: bool, e: bool, re: bool, n: bool, so: bool)
    requires out <= 7
    ensures var val := Assemble(out, w, rw, e, re, n, so);
      && OutDir(val) == out
      && (Enabled(val, W) <==> w) && (Enabled(val, RW) <==> rw) && (Enabled(val, E) <==> e)
      && (Enabled(val, RE) <==> re) && (Enabled(val, N) <==> n) && (Enabled(val, S) <==> so)
      && Enabled(val, P) && !Enabled(val, ROOT)
  {
  }

  function Assemble(out: bv32, w: bool, rw: bool, e: bool, re: bool, n: bool, so: bool): bv32 {
    1 | (out << 16) | (if w then 2 else 0) | (if rw then 32 else 0) | (if e then 4 else 0)
      | (if re then 64 else 0) | (if n then 8 else 0) | (if so then 16 else 0)
  }

  lemma Decode(r: int, t: Tile, s: Shape)
    ensures var c := Center(s); var val := CsrVal(r, t, s);
      && OutDir(val) == Output(r, t, c)
      && (Enabled(val, W) <==> (t.x == c.x - 1 || t.x == c.x) && t.x > 0)
      && (Enabled(val, RW) <==> t.x - r >= 0 && t.x <= c.x)
      && (Enabled(val, E) <==> (t.x == c.x + 1 || t.x == c.x) && t.x < s.tx - 1)
      && (Enabled(val, RE) <==> t.x + r < s.tx && t.x >= c.x)
      && (Enabled(val, N) <==> t.x == c.x && t.y > 0 && t.y <= c.y)
      && (Enabled(val, S) <==> t.x == c.x && t.y < s.ty - 1 && t.y >= c.y)
      && Enabled(val, P) && !Enabled(val, ROOT)
  {
    var c := Center(s);
    var w := (t.x == c.x - 1 || t.x == c.x) && t.x > 0;
    var rw := t.x - r >= 0 && t.x <= c.x;
    var e := (t.x == c.x + 1 || t.x == c.x) && t.x < s.tx - 1;
    var re := t.x + r < s.tx && t.x >= c.x;
    var n := t.x == c.x && t.y > 0 && t.y <= c.y;
    var so := t.x == c.x && t.y < s.ty - 1 && t.y >= c.y;
    FieldsAreSeparate(Output(r, t, c), w, rw, e, re, n, so);
    assert CsrVal(r, t, s) == Assemble(Output(r, t, c), w, rw, e, re, n, so);
  }

  // The word bit by bit. Output, from bit 16: 6 and 2 lead right by r and by one, 5 and
  // 1 lead left, 4 and 3 down and up the centre column, 7 is the root. Inputs: bit 0 is
  // the tile itself, bits 1, 2, 5 and 6 its neighbours in the row, 3 and 4 those in the
  // centre column; other bits are zero.
  lemma ControlWordBits(r: int, t: Tile, s: Shape)
    requires r >= 0
    ensures var cx, cy := s.tx / 2, s.ty / 2; var val := CsrVal(r, t, s);
      && (val >> 16) ==
           (if t.x <= cx - r then 6 else if t.x < cx then 2
            else if t.x == cx then (if t.y < cy then 4 else if t.y == cy then 7 else 3)
            else if t.x < cx + r then 1 else 5)
      && ((val >> 1) & 1 == 1 <==> (t.x == cx - 1 || t.x == cx) && t.x > 0)
      && ((val >> 2) & 1 == 1 <==> (t.x == cx + 1 || t.x == cx) && t.x < s.tx - 1)
      && ((val >> 3) & 1 == 1 <==> t.x == cx && 0 < t.y <= cy)
      && ((val >> 4) & 1 == 1 <==> t.x == cx && cy <= t.y < s.ty - 1)
      && ((val >> 5) & 1 == 1 <==> r <= t.x <= cx)
      && ((val >> 6) & 1 == 1 <==> cx <= t.x < s.tx - r)
      && val & 1 == 1 && val & 0xFF80 == 0
  {
    hide CsrVal, Output;
    Decode(r, t, s);
    WordHasNoOtherBits(r, t, s);
    OutputIsNumber(r, t, s);
  }

  lemma OutputIsNumber(r: int, t: Tile, s: Shape)
    requires r >= 0
    ensures var cx, cy := s.tx / 2, s.ty / 2;
      Output(r, t, Center(s)) ==
           (if t.x <= cx - r then 6 else if t.x < cx then 2
            else if t.x == cx then (if t.y < cy then 4 else if t.y == cy then 7 else 3)
            else if t.x < cx + r then 1 else 5)
  {
  }

  lemma WordHasNoOtherBits(r: int, t: Tile, s: Shape)
    ensures CsrVal(r, t, s) >> 16 == Output(r, t, Center(s)) && CsrVal(r, t, s) & 0xFF80 == 0
    ensures (CsrVal(r, t, s) >> 0) & 1 == CsrVal(r, t, s) & 1
  {
    var c := Center(s);
    var w := (t.x == c.x - 1 || t.x == c.x) && t.x > 0;
    var rw := t.x - r >= 0 && t.x <= c.x;
    var e := (t.x == c.x + 1 || t.x == c.x) && t.x < s.tx - 1;
    var re := t.x + r < s.tx && t.x >= c.x;
    var n := t.x == c.x && t.y > 0 && t.y <= c.y;
    var so := t.x == c.x && t.y < s.ty - 1 && t.y >= c.y;
    AssembleIsNarrow(Output(r, t, c), w, rw, e, re, n, so);
    assert CsrVal(r, t, s) == Assemble(Output(r, t, c), w, rw, e, re, n, so);
  }

  lemma AssembleIsNarrow(out: bv32, w: bool, rw: bool, e: bool, re: bool, n: bool, so: bool)
    requires out <= 7
    ensures var val := Assemble(out, w, rw, e, re, n, so); val >> 16 == out && val & 0xFF80 == 0
  {
  }

  // ---------------------------------------------------------------- the links

  /** Where an output in direction d leads. */
  function Target(r: int, t: Tile, d: bv32): Tile {
    if d == W then Tile(t.x - 1, t.y)
    else if d == E then Tile(t.x + 1, t.y)
    else if d == N then Tile(t.x, t.y - 1)
    else if d == S then Tile(t.x, t.y + 1)
    else if d == RW then Tile(t.x - r, t.y)
    else if d == RE then Tile(t.x + r, t.y)
    else t
  }

  /** The input at which an output in direction d arrives. */
  function Arrives(d: bv32): (e: bv32)
    ensures e <= 7
  {
    if d == W then E else if d == E then W else if d == N then S
    else if d == S then N else if d == RW then RE else if d == RE then RW else P
  }

  function Out(r: int, s: Shape, t: Tile): bv32 { OutDir(CsrVal(r, t, s)) }

  predicate Waits(r: int, s: Shape, t: Tile, d: bv32)
    requires d <= 7
  {
    d != P && Enabled(CsrVal(r, t, s), d)
  }

  /** Tile u's output lands on input d of tile t. */
  predicate Lands(r: int, s: Shape, u: Tile, t: Tile, d: bv32) {
    InGroup(s, u) && Out(r, s, u) != ROOT && Target(r, u, Out(r, s, u)) == t && Arrives(Out(r, s, u)) == d
  }

  function Abs(n: int): nat { if n < 0 then -n else n }

  function Dist(s: Shape, t: Tile): nat { Abs(t.x - Center(s).x) + Abs(t.y - Center(s).y) }

  // Only the centre is a root; every other tile's output lands inside the group,
  // nearer to the centre, on an input that is enabled there.
  ghost predicate FeedsParent(r: int, s: Shape, t: Tile) {
    if t == Center(s) then Out(r, s, t) == ROOT
    else
      var d := Out(r, s, t);
      var p := Target(r, t, d);
      d != ROOT && InGroup(s, p) && Waits(r, s, p, Arrives(d)) && Dist(s, p) < Dist(s, t)
  }

  // Every enabled input is driven by exactly one tile of the group.
  ghost predicate IsDriven(r: int, s: Shape, t: Tile, d: bv32)
    requires d <= 7
  {
    Waits(r, s, t, d) ==>
      (exists u :: Lands(r, s, u, t, d)) && forall u, v :: Lands(r, s, u, t, d) && Lands(r, s, v, t, d) ==> u == v
  }

  ghost predicate IsTree(r: int, s: Shape) {
    && (forall t :: InGroup(s, t) ==> FeedsParent(r, s, t))
    && (forall t, d: bv32 :: InGroup(s, t) && d <= 7 ==> IsDriven(r, s, t, d))
  }

  // The ruche factors and shapes for which the configuration works.
  predicate Supported(r: int, s: Shape) {
    r == 3 || (r == 2 && s.tx <= 3) || (r == 1 && s.tx <= 1)
  }

  lemma SupportedFeedsParent(r: int, s: Shape, t: Tile)
    requires ValidShape(s) && Supported(r, s) && InGroup(s, t)
    ensures FeedsParent(r, s, t)
  {
    Decode(r, t, s);
    if t != Center(s) {
      Decode(r, Target(r, t, Out(r, s, t)), s);
    }
  }

  // The tile that drives input d of tile t.
  function Driver(r: int, t: Tile, d: bv32): Tile {
    if d == W then Tile(t.x - 1, t.y)
    else if d == E then Tile(t.x + 1, t.y)
    else if d == N then Tile(t.x, t.y - 1)
    else if d == S then Tile(t.x, t.y + 1)
    else if d == RW then Tile(t.x - r, t.y)
    else Tile(t.x + r, t.y)
  }

  lemma SupportedIsDriven(r: int, s: Shape, t: Tile, d: bv32)
    requires ValidShape(s) && Supported(r, s) && InGroup(s, t) && d <= 7
    ensures IsDriven(r, s, t, d)
  {
    if Waits(r, s, t, d) {
      Decode(r, t, s);
      Decode(r, Driver(r, t, d), s);
      assert Lands(r, s, Driver(r, t, d), t, d);
      OneDriver(r, s, t, d);
    }
  }

  lemma OneDriver(r: int, s: Shape, t: Tile, d: bv32)
    requires d != P
    ensures forall u :: Lands(r, s, u, t, d) ==> u == Driver(r, t, d)
  {
  }

  // A tile with an enabled input that nobody drives (or, without a ruche hop, a
  // centre that is no root).
  lemma UnsupportedIsBroken(r: int, s: Shape)
    requires ValidShape(s) && 0 <= r <= 3 && !Supported(r, s)
    ensures !IsTree(r, s)
  {
    var c := Center(s);
    Decode(r, c, s);
    if r == 0 {
      assert InGroup(s, c) && !FeedsParent(r, s, c);
    } else {
      var t := if r == 1 then c else Tile(c.x - 1, c.y);
      Decode(r, t, s);
      Decode(r, Tile(t.x - 1, t.y), s);
      assert Waits(r, s, t, W);
      OneDriver(r, s, t, W);
      assert !Lands(r, s, Driver(r, t, W), t, W);
      assert InGroup(s, t) && !IsDriven(r, s, t, W);
    }
  }

  // Of the ruche factors 0 to 3 that a device can report, factor 3 configures a
  // reduction tree for every group shape, factor 2 exactly for widths up to 3,
  // factor 1 exactly for width 1, and factor 0 never.
  lemma TreeExactlyWhenSupported(r: int, s: Shape)
    requires ValidShape(s) && 0 <= r <= 3
    ensures IsTree(r, s) <==> Supported(r, s)
  {
    if Supported(r, s) {
      forall t | InGroup(s, t) ensures FeedsParent(r, s, t) { SupportedFeedsParent(r, s, t); }
      forall t, d: bv32 | InGroup(s, t) && d <= 7 ensures IsDriven(r, s, t, d) { SupportedIsDriven(r, s, t, d); }
    } else {
      UnsupportedIsBroken(r, s);
    }
  }

  // ---------------------------------------------------------------- firing

  /** The tiles whose program has reached the barrier, and the tiles that have
      sent their output. */
  datatype State = State(arrived: set<Tile>, fired: set<Tile>)

  ghost predicate InputArrived(r: int, s: Shape, st: State, t: Tile, d: bv32) {
    exists u :: u in st.fired && Lands(r, s, u, t, d)
  }

  // A tile fires once, after its own program and all enabled inputs arrived.
  ghost predicate CanFire(r: int, s: Shape, st: State, t: Tile) {
    && InGroup(s, t) && t in st.arrived && t !in st.fired
    && forall d: bv32 :: d <= 7 && Waits(r, s, t, d) ==> InputArrived(r, s, st, t, d)
  }

  datatype Event = Arrive(t: Tile) | Fire(t: Tile)

  ghost predicate Allowed(r: int, s: Shape, st: State, e: Event) {
    match e
    case Arrive(t) => InGroup(s, t)
    case Fire(t) => CanFire(r, s, st, t)
  }

  function Apply(st: State, e: Event): State {
    match e
    case Arrive(t) => st.(arrived := st.arrived + {t})
    case Fire(t) => st.(fired := st.fired + {t})
  }

  /** A history of events, each allowed in the state it happens in. */
  ghost predicate IsRun(r: int, s: Shape, st: State, es: seq<Event>)
    decreases |es|
  {
    es == [] || (Allowed(r, s, st, es[0]) && IsRun(r, s, Apply(st, es[0]), es[1..]))
  }

  ghost function After(st: State, es: seq<Event>): State
    decreases |es|
  {
    if es == [] then st else After(Apply(st, es[0]), es[1..])
  }

  // Fired tiles had arrived, and so had all their inputs.
  ghost predicate Inv(r: int, s: Shape, st: State) {
    && (forall t :: t in st.arrived ==> InGroup(s, t))
    && forall t :: t in st.fired ==>
         t in st.arrived && forall d: bv32 :: d <= 7 && Waits(r, s, t, d) ==> InputArrived(r, s, st, t, d)
  }

  lemma StepKeepsInv(r: int, s: Shape, st: State, e: Event)
    requires Inv(r, s, st) && Allowed(r, s, st, e)
    ensures Inv(r, s, Apply(st, e))
  {
    var st' := Apply(st, e);
    forall t, d: bv32 | t in st'.fired && d <= 7 && Waits(r, s, t, d) ensures InputArrived(r, s, st', t, d) {
      assert InputArrived(r, s, st, t, d);
      var u :| u in st.fired && Lands(r, s, u, t, d);
      assert u in st'.fired;
    }
  }

  lemma {:induction false} RunKeepsInv(r: int, s: Shape, st: State, es: seq<Event>)
    requires Inv(r, s, st) && IsRun(r, s, st, es)
    ensures Inv(r, s, After(st, es))
    decreases |es|
  {
    if es != [] {
      StepKeepsInv(r, s, st, es[0]);
      RunKeepsInv(r, s, Apply(st, es[0]), es[1..]);
    }
  }

  // When the root has fired, every tile has fired: follow the outputs upwards.
  lemma {:induction false} RootFiresLast(r: int, s: Shape, st: State, t: Tile)
    requires IsTree(r, s) && Inv(r, s, st) && Center(s) in st.fired && InGroup(s, t)
    ensures t in st.fired
    decreases Dist(s, t)
  {
    if t != Center(s) {
      assert FeedsParent(r, s, t);
      var d := Out(r, s, t);
      var p := Target(r, t, d);
      RootFiresLast(r, s, st, p);
      assert InputArrived(r, s, st, p, Arrives(d));
      assert Lands(r, s, t, p, Arrives(d));
      assert IsDriven(r, s, p, Arrives(d));
    }
  }

  // Safety: in every history that starts with nothing arrived, the root fires
  // only when all tiles of the group have arrived.
  lemma RootWaitsForAll(r: int, s: Shape, es: seq<Event>)
    requires ValidShape(s) && IsTree(r, s) && IsRun(r, s, State({}, {}), es)
    ensures var st := After(State({}, {}), es);
      Center(s) in st.fired ==> forall t :: InGroup(s, t) ==> t in st.arrived
  {
    var st := After(State({}, {}), es);
    RunKeepsInv(r, s, State({}, {}), es);
    if Center(s) in st.fired {
      forall t | InGroup(s, t) ensures t in st.arrived { RootFiresLast(r, s, st, t); }
    }
  }

  // Below any unfired tile there is one that can fire now.
  lemma {:induction false} SomeoneCanFire(r: int, s: Shape, st: State, t: Tile) returns (u: Tile)
    requires IsTree(r, s) && Inv(r, s, st) && InGroup(s, t) && t !in st.fired
    requires forall v :: InGroup(s, v) ==> v in st.arrived
    ensures CanFire(r, s, st, u)
    decreases s.tx + s.ty - Dist(s, t)
  {
    if d: bv32 :| d <= 7 && Waits(r, s, t, d) && !InputArrived(r, s, st, t, d) {
      assert IsDriven(r, s, t, d);
      var v :| Lands(r, s, v, t, d);
      assert v !in st.fired;
      assert FeedsParent(r, s, v);
      u := SomeoneCanFire(r, s, st, v);
    } else {
      u := t;
    }
  }

  ghost function Tiles(s: Shape): set<Tile> {
    set x, y | 0 <= x < s.tx && 0 <= y < s.ty :: Tile(x, y)
  }

  // Liveness: from any state of a history in which all tiles have arrived,
  // firing whoever can fire never gets stuck before the root has fired.
  lemma {:induction false} RootIsNeverBlocked(r: int, s: Shape, st: State) returns (es: seq<Event>)
    requires ValidShape(s) && IsTree(r, s) && Inv(r, s, st)
    requires forall t :: InGroup(s, t) ==> t in st.arrived
    ensures IsRun(r, s, st, es) && Center(s) in After(st, es).fired
    ensures forall e :: e in es ==> e.Fire?
    decreases Tiles(s) - st.fired
  {
    if Center(s) in st.fired {
      es := [];
    } else {
      var u := SomeoneCanFire(r, s, st, Center(s));
      StepKeepsInv(r, s, st, Fire(u));
      assert u in Tiles(s) - st.fired && u !in Tiles(s) - Apply(st, Fire(u)).fired;
      var rest := RootIsNeverBlocked(r, s, Apply(st, Fire(u)));
      es := [Fire(u)] + rest;
      assert es[1..] == rest;
    }
  }
}
