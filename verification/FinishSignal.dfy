// From a group's end to the host: the address a tile stores to, and the packet
// the host receives.
module FinishSignal {
  import opened Bits
  import opened Coordinates
  import opened PodGeometry
  import opened EvaMap
  import opened TileGroups
  import opened Execution
  import MM = MemoryManager

  /** The host address that a group's last tile writes. */
  function SignalNpa(cfg: Config, g: Group): Npa { Npa(cfg.geo.host.x, cfg.geo.host.y, g.finishEpa) }

  // The low part of a global address is that of the signal address: the
  // coordinates and the tag lie above it.
  lemma LowFieldOfGlobal(npa: Npa)
    ensures Low(GlobalEva(npa), GLOBAL_EPA_LOGSZ) == npa.epa % 0x1_0000
  {
    hide Shr, Low, Shl, Pow2, Or;
    var k, x, y := GLOBAL_EPA_LOGSZ, Low(Shl(npa.x, GLOBAL_X_BITIDX), 32), Low(Shl(npa.y, GLOBAL_Y_BITIDX), 32);
    var a1 := Or(npa.epa, x);
    var a2 := Or(a1, y);
    FieldAbove(npa.x, GLOBAL_X_BITIDX, k);
    FieldAbove(npa.y, GLOBAL_Y_BITIDX, k);
    ShiftedAbove(1, GLOBAL_BITIDX, k);
    OrLow(npa.epa, x, k);
    OrZero(Low(npa.epa, k));
    OrLow(a1, y, k);
    OrZero(Low(a1, k));
    OrLow(a2, Shl(1, GLOBAL_BITIDX), k);
    OrZero(Low(a2, k));
    ShiftsAreDivision(npa.epa, k);
    Pow2Of7And16();
  }

  lemma ShiftedAbove(a: nat, j: nat, k: nat)
    requires k <= j
    ensures Low(Shl(a, j), k) == 0
  {
    hide Shr, Low, Shl, Pow2;
    Pow2Positive(k);
    ShlSum(a, j - k, k);
    LowShrUnique(0, Shl(a, j - k), k);
  }

  lemma FieldAbove(a: nat, j: nat, k: nat)
    requires k <= j && k <= 32
    ensures Low(Low(Shl(a, j), 32), k) == 0
  {
    ShiftedAbove(a, j, k);
    LowOfLow(Shl(a, j), k, 32);
  }

  // The translation takes the host branch; the signal arrives at the host at its
  // own address exactly if that fits sixteen bits; and the address in the packet
  // is always the one that finish packets carry.
  lemma SignalIsDelivered(cfg: Config, tgt: Coord, g: Group)
    requires EvaMap.Valid(cfg) && cfg.geo.host.x < 128 && cfg.geo.host.y < 128 && !IsDramNorth(cfg.geo, cfg.geo.host)
    ensures NpaToEva(cfg, tgt, SignalNpa(cfg, g)).Some?
    ensures var target := GlobalTarget(NpaToEva(cfg, tgt, SignalNpa(cfg, g)).eva);
      && target.epa == FinishPacket(g).epa
      && (target == SignalNpa(cfg, g) <==> g.finishEpa < 0x1_0000)
  {
    hide Shr, Low, Shl, Pow2, Or, GlobalEva, IsDramNorth, TileInPod, NetworkPod;
    LowFieldOfGlobal(SignalNpa(cfg, g));
    SignalReachesHost(cfg.geo.host, g.finishEpa);
  }

  // On a ready pod the signal of every group arrives at the host, at the address
  // its finish packet is matched by.
  lemma ReadySignalsArrive(cfg: Config, tgt: Coord, p: Pod, base: seq<MM.Block>, i: nat)
    requires EvaMap.Valid(cfg) && cfg.geo.host.x < 128 && cfg.geo.host.y < 128 && !IsDramNorth(cfg.geo, cfg.geo.host)
    requires Ready(p, base) && i < |p.groups|
    ensures NpaToEva(cfg, tgt, SignalNpa(cfg, p.groups[i])).Some?
    ensures var target := GlobalTarget(NpaToEva(cfg, tgt, SignalNpa(cfg, p.groups[i])).eva);
      target == Npa(cfg.geo.host.x, cfg.geo.host.y, FinishPacket(p.groups[i]).epa)
  {
    SignalIsDelivered(cfg, tgt, p.groups[i]);
  }
}
