/**
 One VLAN's spanning-tree instance on one switch (clause 8 of IEEE 802.1D-1998, with the
 proposal and agreement of IEEE 802.1w), as functions on its value.
 */
module StpSpec {
  import opened Prelude

  const FORWARD_DELAY_US: nat := 15_000_000

  type Port = nat

  datatype Role = Root | Designated | Alternate
  datatype PortState = Blocking | Listening | Learning | Forwarding

  /** A configuration vector, compared field by field, smaller being better. */
  datatype Vector = Vector(root: nat, cost: nat, bridge: nat, port: nat)

  datatype Bpdu = Bpdu(vector: Vector, rapid: bool, proposal: bool, agreement: bool, fromRoot: bool,
                       messageAge: nat, maxAge: nat, helloTime: nat)

  datatype Received = Received(bpdu: Bpdu, guarded: bool, expiresAt: nat)

  datatype PortConfig = PortConfig(id: nat, cost: nat, portfast: bool, rootGuard: bool, bpduGuard: bool)

  /** `ports` lists the VLAN's operational ports in ascending order. */
  datatype Config = Config(bridge: nat, rapid: bool, ports: seq<Port>, settings: map<Port, PortConfig>)

  datatype PortView = PortView(role: Role, state: PortState)

  datatype Instance = Instance(
    agreed: set<Port>,
    transitions: map<Port, nat>,
    rootId: nat,
    rootCost: nat,
    rootPort: Option<Port>,
    ports: map<Port, PortView>,
    received: map<Port, Received>)

  datatype Choice = Choice(rootId: nat, rootCost: nat, rootPort: Option<Port>)

  ghost predicate ValidConfig(cfg: Config) {
    && (forall p :: p in cfg.ports ==> p in cfg.settings)
    && (forall i, j :: 0 <= i < j < |cfg.ports| ==> cfg.ports[i] < cfg.ports[j])
  }

  // ------------------------------------------------------------------------- identifiers

  /** A configurable bridge priority; its low twelve bits are free for the VLAN. */
  predicate ValidPriority(priority: nat) {
    priority % 4096 == 0 && priority <= U16_MAX
  }

  /** Priority and VLAN in the top sixteen bits, the lowest MAC address below. */
  function BridgeId(priority: nat, vlan: nat, mac: nat): nat
    requires ValidPriority(priority) && vlan < 4096
  {
    (priority + vlan) * 0x1_0000_0000_0000 + mac
  }

  /** Bridges are ordered by priority, then VLAN, then MAC address, and never tie unless all agree. */
  lemma BridgeIdOrder(priority: nat, vlan: nat, mac: nat, priority': nat, vlan': nat, mac': nat)
    requires ValidPriority(priority) && ValidPriority(priority') && vlan < 4096 && vlan' < 4096
    requires mac < 0x1_0000_0000_0000 && mac' < 0x1_0000_0000_0000
    ensures BridgeId(priority, vlan, mac) < BridgeId(priority', vlan', mac') <==>
            || priority < priority'
            || (priority == priority' && vlan < vlan')
            || (priority == priority' && vlan == vlan' && mac < mac')
    ensures BridgeId(priority, vlan, mac) == BridgeId(priority', vlan', mac') <==>
            priority == priority' && vlan == vlan' && mac == mac'
  {
  }

  // ------------------------------------------------------------------------------ vectors

  predicate Better(a: Vector, b: Vector) {
    || a.root < b.root
    || (a.root == b.root && a.cost < b.cost)
    || (a.root == b.root && a.cost == b.cost && a.bridge < b.bridge)
    || (a.root == b.root && a.cost == b.cost && a.bridge == b.bridge && a.port < b.port)
  }

  /** A received vector as a path to the root: cost added, ties broken by the local port id. */
  datatype Path = Path(vector: Vector, local: nat)

  predicate BetterPath(a: Path, b: Path) {
    Better(a.vector, b.vector) || (a.vector == b.vector && a.local < b.local)
  }

  function PathVia(cfg: Config, received: map<Port, Received>, p: Port): Path
    requires p in received && p in cfg.settings
  {
    var v := received[p].bpdu.vector;
    Path(v.(cost := SatAdd32(v.cost, cfg.settings[p].cost)), cfg.settings[p].id)
  }

  // ----------------------------------------------------------------------------- election

  /** The best unguarded port among the first `n`, the earliest one on a full tie. */
  function BestPort(cfg: Config, received: map<Port, Received>, n: nat): (best: Option<Port>)
    requires ValidConfig(cfg) && n <= |cfg.ports|
    ensures best.Some? ==> best.value in cfg.ports && best.value in received && !received[best.value].guarded
  {
    if n == 0 then None
    else
      var before := BestPort(cfg, received, n - 1);
      var p := cfg.ports[n - 1];
      if p !in received || received[p].guarded then before
      else if before.None? || BetterPath(PathVia(cfg, received, p), PathVia(cfg, received, before.value)) then Some(p)
      else before
  }

  function Elect(cfg: Config, received: map<Port, Received>): Choice
    requires ValidConfig(cfg)
  {
    var best := BestPort(cfg, received, |cfg.ports|);
    if best.Some? && BetterPath(PathVia(cfg, received, best.value), Path(Vector(cfg.bridge, 0, cfg.bridge, 0), 0)) then
      var v := PathVia(cfg, received, best.value).vector;
      Choice(v.root, v.cost, best)
    else
      Choice(cfg.bridge, 0, None)
  }

  /** What this switch would announce through a port. */
  function Offer(cfg: Config, c: Choice, p: Port): Vector
    requires p in cfg.settings
  {
    Vector(c.rootId, c.rootCost, cfg.bridge, cfg.settings[p].id)
  }

  function Guarded(received: map<Port, Received>, p: Port): bool {
    p in received && received[p].guarded
  }

  function RoleOf(cfg: Config, c: Choice, received: map<Port, Received>, p: Port): Role
    requires p in cfg.settings
  {
    if c.rootPort == Some(p) then Root
    else if Guarded(received, p) || p !in received || Better(Offer(cfg, c, p), received[p].bpdu.vector) then Designated
    else Alternate
  }

  predicate Edge(cfg: Config, received: map<Port, Received>, p: Port)
    requires p in cfg.settings
  {
    cfg.settings[p].portfast && p !in received
  }

  function StateOf(cfg: Config, role: Role, received: map<Port, Received>, agreed: bool, p: Port, since: nat,
                   now: nat): PortState
    requires p in cfg.settings
  {
    if Guarded(received, p) || role == Alternate then Blocking
    else if Edge(cfg, received, p) || (cfg.rapid && agreed) then Forwarding
    else if SatSub(now, since) < FORWARD_DELAY_US then (if cfg.rapid then Blocking else Listening)
    else if SatSub(now, since) < 2 * FORWARD_DELAY_US then Learning
    else Forwarding
  }

  // --------------------------------------------------------------------------- recompute

  function FreshReceived(cfg: Config, received: map<Port, Received>, now: nat): map<Port, Received> {
    map p | p in received && p in cfg.ports && received[p].expiresAt > now :: received[p]
  }

  predicate RootChanged(i: Instance, c: Choice) {
    i.rootId != c.rootId || i.rootPort != c.rootPort || i.rootCost != c.rootCost
  }

  /** Agreements and transition times that survive the election. */
  function KeptAgreed(cfg: Config, i: Instance, c: Choice): set<Port> {
    if RootChanged(i, c) then {} else set p | p in i.agreed && p in cfg.ports
  }

  function KeptTransitions(cfg: Config, i: Instance, c: Choice): map<Port, nat> {
    if RootChanged(i, c) then map[] else map p | p in i.transitions && p in cfg.ports :: i.transitions[p]
  }

  predicate RoleChanged(previous: map<Port, PortView>, p: Port, role: Role) {
    p !in previous || previous[p].role != role
  }

  function Since(cfg: Config, i: Instance, c: Choice, role: Role, p: Port, now: nat): nat {
    var kept := KeptTransitions(cfg, i, c);
    if RoleChanged(i.ports, p, role) || p !in kept then now else kept[p]
  }

  predicate StillAgreed(cfg: Config, i: Instance, c: Choice, role: Role, p: Port) {
    p in KeptAgreed(cfg, i, c) && !RoleChanged(i.ports, p, role)
  }

  function ViewOf(cfg: Config, i: Instance, c: Choice, received: map<Port, Received>, p: Port, now: nat): PortView
    requires p in cfg.settings
  {
    var role := RoleOf(cfg, c, received, p);
    PortView(role, StateOf(cfg, role, received, StillAgreed(cfg, i, c, role, p), p, Since(cfg, i, c, role, p, now),
                           now))
  }

  function Recompute(cfg: Config, i: Instance, now: nat): Instance
    requires ValidConfig(cfg)
  {
    var received := FreshReceived(cfg, i.received, now);
    var c := Elect(cfg, received);
    Instance(
      set p | p in cfg.ports && StillAgreed(cfg, i, c, RoleOf(cfg, c, received, p), p),
      map p | p in cfg.ports :: Since(cfg, i, c, RoleOf(cfg, c, received, p), p, now),
      c.rootId, c.rootCost, c.rootPort,
      map p | p in cfg.ports :: ViewOf(cfg, i, c, received, p, now),
      received)
  }

  /** Whether learned addresses must be flushed. */
  predicate MustFlush(before: Instance, after: Instance) {
    || before.rootId != after.rootId || before.rootPort != after.rootPort || before.rootCost != after.rootCost
    || exists p :: p in before.ports && (p !in after.ports || after.ports[p] != before.ports[p])
  }

  // ---------------------------------------------------------------------------- receiving

  function Lifetime(b: Bpdu): nat {
    var whole := SatSub(b.maxAge, b.messageAge) * 1_000_000 / 256;
    if b.rapid then Min(whole, b.helloTime * 3_000_000 / 256) else whole
  }

  /** Root guard refuses a neighbour that claims a better root path than ours. */
  predicate Refused(cfg: Config, i: Instance, p: Port, b: Bpdu)
    requires p in cfg.settings
  {
    && cfg.settings[p].rootGuard
    && (|| b.vector.root < i.rootId
        || (b.vector.root == i.rootId && b.vector.cost < i.rootCost)
        || (b.vector.root == i.rootId && b.vector.cost == i.rootCost && b.vector.bridge < cfg.bridge))
  }

  /** Record a BPDU on its port. */
  function Store(cfg: Config, i: Instance, p: Port, b: Bpdu, now: nat): Instance
    requires p in cfg.settings
  {
    i.(transitions := if p in i.received then i.transitions else i.transitions[p := now],
       received := i.received[p := Received(b, Refused(cfg, i, p, b), SatAdd64(now, Lifetime(b)))])
  }

  /** Designated ports that must stop forwarding before a root port may open. */
  function MustSync(cfg: Config, i: Instance, p: Port): set<Port>
    requires ValidConfig(cfg) && i.ports.Keys <= (set q | q in cfg.ports)
  {
    set q | q in i.ports && q != p && i.ports[q].role == Designated && !Edge(cfg, i.received, q)
  }

  /** The proposal or agreement of a rapid BPDU. */
  function Handshake(cfg: Config, i: Instance, p: Port, b: Bpdu, now: nat): Instance
    requires ValidConfig(cfg) && i.ports.Keys <= (set q | q in cfg.ports)
  {
    if p !in i.ports then i
    else if i.ports[p].role == Root && b.proposal then
      if p in i.agreed then i
      else
        var sync := MustSync(cfg, i, p);
        i.(agreed := (i.agreed - sync) + {p},
           transitions := i.transitions + (map q | q in sync :: now))
    else if i.ports[p].role == Designated && b.agreement && b.fromRoot
            && b.vector.root == i.rootId && b.vector.cost >= i.rootCost then
      i.(agreed := i.agreed + {p})
    else i
  }

  datatype Reception = Reception(instance: Instance, report: bool)

  /** A BPDU that passes BPDU guard and does not come from this bridge itself. */
  function ReceiveForeign(cfg: Config, i: Instance, p: Port, b: Bpdu, now: nat): Reception
    requires ValidConfig(cfg) && p in cfg.ports
  {
    var previous := Recompute(cfg, i, now);
    var stored := Recompute(cfg, Store(cfg, previous, p, b, now), now);
    var after :=
      if cfg.rapid && b.rapid && !Refused(cfg, previous, p, b)
      then Recompute(cfg, Handshake(cfg, stored, p, b, now), now) else stored;
    Reception(after,
      || previous.rootId != after.rootId || previous.rootPort != after.rootPort
      || previous.ports != after.ports || previous.agreed != after.agreed
      || (b.rapid && b.proposal && after.rootPort == Some(p)))
  }

  function Forget(i: Instance, p: Port): Instance {
    i.(received := i.received - {p}, ports := i.ports - {p}, agreed := i.agreed - {p})
  }

  function Receive(cfg: Config, i: Instance, p: Port, b: Bpdu, now: nat): Reception
    requires ValidConfig(cfg)
  {
    if p !in cfg.ports then Reception(i, false)
    else if cfg.settings[p].bpduGuard then Reception(Forget(i, p), true)
    else if b.vector.bridge == cfg.bridge then Reception(i, false)
    else ReceiveForeign(cfg, i, p, b, now)
  }

  // --------------------------------------------------------------------------- facts

  lemma BetterIsStrictOrder(a: Vector, b: Vector, c: Vector)
    ensures !Better(a, a)
    ensures Better(a, b) && Better(b, c) ==> Better(a, c)
    ensures a != b ==> Better(a, b) || Better(b, a)
  {
  }

  /** No received, unguarded path beats the elected port's. */
  lemma {:induction false} BestPortIsBest(cfg: Config, received: map<Port, Received>, n: nat, p: Port)
    requires ValidConfig(cfg) && n <= |cfg.ports|
    requires p in cfg.ports[..n] && p in received && !received[p].guarded
    ensures var best := BestPort(cfg, received, n);
            best.Some? && !BetterPath(PathVia(cfg, received, p), PathVia(cfg, received, best.value))
  {
    assert cfg.ports[..n] == cfg.ports[..n - 1] + [cfg.ports[n - 1]];
    if p != cfg.ports[n - 1] {
      BestPortIsBest(cfg, received, n - 1, p);
    }
  }

  /** The switch's own claim, as a path. */
  function Claim(cfg: Config): Path {
    Path(Vector(cfg.bridge, 0, cfg.bridge, 0), 0)
  }

  /** A port through which the root may be reached. */
  predicate Offers(cfg: Config, received: map<Port, Received>, p: Port) {
    p in cfg.ports && p in received && !received[p].guarded
  }

  predicate NoFarther(c: Choice, v: Vector) {
    c.rootId < v.root || (c.rootId == v.root && c.rootCost <= v.cost)
  }

  /** The choice stands for the switch's own claim or for the path through its root port. */
  ghost predicate Attained(cfg: Config, received: map<Port, Received>, c: Choice)
    requires ValidConfig(cfg)
  {
    match c.rootPort
    case None => c.rootId == cfg.bridge && c.rootCost == 0
    case Some(q) =>
      && Offers(cfg, received, q)
      && c.rootId == PathVia(cfg, received, q).vector.root && c.rootCost == PathVia(cfg, received, q).vector.cost
      && BetterPath(PathVia(cfg, received, q), Claim(cfg))
  }

  lemma ElectBeats(cfg: Config, received: map<Port, Received>, p: Port)
    requires ValidConfig(cfg) && Offers(cfg, received, p)
    ensures NoFarther(Elect(cfg, received), PathVia(cfg, received, p).vector)
    ensures Elect(cfg, received).rootPort.None? ==> !BetterPath(PathVia(cfg, received, p), Claim(cfg))
  {
    assert cfg.ports[..|cfg.ports|] == cfg.ports;
    BestPortIsBest(cfg, received, |cfg.ports|, p);
  }

  /** The election chooses the minimum of the bridge's own claim and every path offered to it. */
  lemma ElectIsMinimum(cfg: Config, received: map<Port, Received>)
    requires ValidConfig(cfg)
    ensures var c := Elect(cfg, received);
            && Attained(cfg, received, c)
            && NoFarther(c, Claim(cfg).vector)
            && (forall p | Offers(cfg, received, p) :: NoFarther(c, PathVia(cfg, received, p).vector))
            && (c.rootPort.None? ==> forall p | Offers(cfg, received, p) ::
                !BetterPath(PathVia(cfg, received, p), Claim(cfg)))
  {
    forall p | Offers(cfg, received, p)
      ensures NoFarther(Elect(cfg, received), PathVia(cfg, received, p).vector)
      ensures Elect(cfg, received).rootPort.None? ==> !BetterPath(PathVia(cfg, received, p), Claim(cfg))
    {
      ElectBeats(cfg, received, p);
    }
  }
}
