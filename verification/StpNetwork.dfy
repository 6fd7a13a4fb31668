/**
 A network of switches in a stable state: every switch is a fixed point of its own
 recomputation, and every port holds the current vector of the port at the other end of its
 cable when that port is Designated, may hold it when that port is Root (rapid root ports
 also speak), and holds nothing otherwise.

 From these local facts: one root, the least bridge id; root costs that are shortest
 distances; one Designated end per cable; and Root ports that span the network as a tree.
 */
module StpNetwork {
  import opened Prelude
  import opened StpSpec

  // ------------------------------------------------------------------- one cable, two ends

  /** What one end of a cable shows: its switch's root, its own role, and the vector it holds. */
  datatype End = End(bridge: nat, rootId: nat, rootCost: nat, isRootPort: bool,
                     id: nat, cost: nat, role: Role, heard: Option<Vector>)

  ghost function Says(e: End): Vector {
    Vector(e.rootId, e.rootCost, e.bridge, e.id)
  }

  /** The election and role rules, seen from one end. */
  ghost predicate Ruled(e: End) {
    && (e.role == Root <==> e.isRootPort)
    && (e.isRootPort ==> e.heard.Some? && e.rootId == e.heard.value.root && e.rootCost == e.heard.value.cost + e.cost)
    && (e.heard.Some? ==>
          || e.rootId < e.heard.value.root
          || (e.rootId == e.heard.value.root && e.rootCost <= e.heard.value.cost + e.cost))
    && (e.role == Designated <==> !e.isRootPort && (e.heard.None? || Better(Says(e), e.heard.value)))
    && e.cost >= 1
  }

  /** `a` holds exactly what `b` says, if `b` speaks. */
  ghost predicate Hears(a: End, b: End) {
    && (a.heard.Some? ==> b.role != Alternate && a.heard.value == Says(b))
    && (b.role == Designated ==> a.heard.Some?)
  }

  ghost predicate Link(a: End, b: End) {
    Ruled(a) && Ruled(b) && Hears(a, b) && Hears(b, a)
  }

  /** Exactly one end of a cable is Designated, and both are never Root. */
  lemma OneDesignatedEnd(a: End, b: End)
    requires Link(a, b)
    ensures a.role == Designated <==> b.role != Designated
    ensures !(a.role == Root && b.role == Root)
  {
  }

  /** The ends agree on the root, their costs differ by at most the cable, and a Root port leads nearer. */
  lemma EndsAgree(a: End, b: End)
    requires Link(a, b)
    ensures a.rootId == b.rootId
    ensures a.rootCost <= b.rootCost + a.cost
    ensures a.role == Root ==> a.rootCost == b.rootCost + a.cost && b.role == Designated
  {
    OneDesignatedEnd(a, b);
  }

  // ---------------------------------------------------------------------------- networks

  type Switch = nat

  datatype Plug = Plug(sw: Switch, port: Port)

  datatype Node = Node(cfg: Config, inst: Instance)

  /** `peer` maps every cabled port to the port at the other end. */
  datatype Net = Net(switches: map<Switch, Node>, peer: map<Plug, Plug>)

  ghost predicate Exists(n: Net, p: Plug) {
    p in n.peer && p.sw in n.switches && p.port in n.switches[p.sw].cfg.ports
  }

  ghost predicate CableOk(n: Net, p: Plug) {
    p in n.peer && Exists(n, p) && Exists(n, n.peer[p]) && n.peer[n.peer[p]] == p && n.peer[p].sw != p.sw
  }

  ghost predicate SwitchOk(n: Net, v: Switch) {
    v in n.switches && ValidConfig(n.switches[v].cfg)
    && forall p :: p in n.switches[v].cfg.ports ==> n.switches[v].cfg.settings[p].cost >= 1
  }

  /** Every cable joins two existing ports of different switches; bridge ids differ; every cost is at least 1. */
  ghost predicate Cabled(n: Net) {
    && (forall p {:trigger CableOk(n, p)} :: p in n.peer ==> CableOk(n, p))
    && (forall v {:trigger SwitchOk(n, v)} :: v in n.switches ==> SwitchOk(n, v))
    && (forall v, w :: v in n.switches && w in n.switches && n.switches[v].cfg.bridge == n.switches[w].cfg.bridge ==>
        v == w)
  }

  ghost predicate FixedPoint(n: Net, v: Switch, now: nat) {
    SwitchOk(n, v) && Recompute(n.switches[v].cfg, n.switches[v].inst, now) == n.switches[v].inst
  }

  /** Port `p` holds nothing but what the other end of its cable now says, and that if it speaks. */
  ghost predicate PortCurrent(n: Net, v: Switch, p: Port) {
    && v in n.switches
    && var heard := n.switches[v].inst.received;
       var plug := Plug(v, p);
       (p in heard ==>
          && CableOk(n, plug) && !heard[p].guarded
          && var q := n.peer[plug]; var far := n.switches[q.sw];
             && q.port in far.inst.ports && far.inst.ports[q.port].role != Alternate
             && q.port in far.cfg.settings
             && heard[p].bpdu.vector == Vector(far.inst.rootId, far.inst.rootCost, far.cfg.bridge,
                                               far.cfg.settings[q.port].id)
             && p in n.switches[v].cfg.settings
             && heard[p].bpdu.vector.cost + n.switches[v].cfg.settings[p].cost <= U32_MAX)
  }

  ghost predicate PortInformed(n: Net, p: Plug) {
    CableOk(n, p) &&
    var q := n.peer[p];
    var far := n.switches[q.sw].inst;
    q.port in far.ports && far.ports[q.port].role == Designated ==> p.port in n.switches[p.sw].inst.received
  }

  /** A stable state at time `now`. */
  ghost predicate Stable(n: Net, now: nat) {
    && Cabled(n)
    && (forall v {:trigger FixedPoint(n, v, now)} :: v in n.switches ==> FixedPoint(n, v, now))
    && (forall v, p {:trigger PortCurrent(n, v, p)} :: v in n.switches ==> PortCurrent(n, v, p))
    && (forall p {:trigger PortInformed(n, p)} :: p in n.peer ==> PortInformed(n, p))
  }

  // ------------------------------------------------------------ reading a switch's fields

  /** A fixed point's stored root, costs and roles are those of the election. */
  lemma FixedPointReads(n: Net, v: Switch, now: nat)
    requires FixedPoint(n, v, now)
    ensures var cfg, i := n.switches[v].cfg, n.switches[v].inst; var c := Elect(cfg, i.received);
            && c == Choice(i.rootId, i.rootCost, i.rootPort)
            && (forall p :: p in i.received ==> p in cfg.ports)
            && (forall p :: p in cfg.ports ==> p in i.ports && i.ports[p].role == RoleOf(cfg, c, i.received, p))
  {
    var cfg, i := n.switches[v].cfg, n.switches[v].inst;
    var r := Recompute(cfg, i, now);
    assert r.received == i.received;
    forall p | p in cfg.ports ensures p in i.ports
      && i.ports[p].role == RoleOf(cfg, Elect(cfg, i.received), i.received, p) {
      assert r.ports[p] == ViewOf(cfg, i, Elect(cfg, i.received), i.received, p, now);
    }
  }

  lemma OwnClaim(n: Net, v: Switch, now: nat)
    requires FixedPoint(n, v, now)
    ensures var cfg, i := n.switches[v].cfg, n.switches[v].inst;
            && i.rootId <= cfg.bridge
            && (i.rootPort.None? ==> i.rootId == cfg.bridge && i.rootCost == 0)
            && (i.rootPort.Some? ==> i.rootPort.value in i.received && i.rootPort.value in cfg.ports)
  {
    FixedPointReads(n, v, now);
  }

  ghost function EndOf(n: Net, p: Plug): End
    requires Exists(n, p) && SwitchOk(n, p.sw) && p.port in n.switches[p.sw].inst.ports
  {
    var cfg, i := n.switches[p.sw].cfg, n.switches[p.sw].inst;
    End(cfg.bridge, i.rootId, i.rootCost, i.rootPort == Some(p.port), cfg.settings[p.port].id,
        cfg.settings[p.port].cost,
        i.ports[p.port].role, if p.port in i.received then Some(i.received[p.port].bpdu.vector) else None)
  }

  lemma EndRuled(n: Net, p: Plug, now: nat)
    requires Exists(n, p) && FixedPoint(n, p.sw, now) && PortCurrent(n, p.sw, p.port)
    ensures p.port in n.switches[p.sw].inst.ports && Ruled(EndOf(n, p))
  {
    var cfg, i := n.switches[p.sw].cfg, n.switches[p.sw].inst;
    FixedPointReads(n, p.sw, now);
    if p.port in i.received {
      ElectBeats(cfg, i.received, p.port);
    }
  }

  /** The local rules at both ends of a cable. */
  lemma CableLinks(n: Net, p: Plug, now: nat)
    requires Stable(n, now) && p in n.peer
    ensures CableOk(n, p) && SwitchOk(n, p.sw) && SwitchOk(n, n.peer[p].sw)
    ensures p.port in n.switches[p.sw].inst.ports && n.peer[p].port in n.switches[n.peer[p].sw].inst.ports
    ensures Link(EndOf(n, p), EndOf(n, n.peer[p]))
  {
    var q := n.peer[p];
    assert CableOk(n, p);
    assert CableOk(n, q);
    assert FixedPoint(n, p.sw, now) && FixedPoint(n, q.sw, now);
    assert PortCurrent(n, p.sw, p.port) && PortCurrent(n, q.sw, q.port);
    assert PortInformed(n, p) && PortInformed(n, q);
    EndRuled(n, p, now);
    EndRuled(n, q, now);
    assert Plug(p.sw, p.port) == p && Plug(q.sw, q.port) == q;
  }

  ghost function RootIdOf(n: Net, v: Switch): nat
    requires v in n.switches
  { n.switches[v].inst.rootId }

  ghost function RootCostOf(n: Net, v: Switch): nat
    requires v in n.switches
  { n.switches[v].inst.rootCost }

  ghost function CostOf(n: Net, p: Plug): nat {
    if p.sw in n.switches && p.port in n.switches[p.sw].cfg.settings then n.switches[p.sw].cfg.settings[p.port].cost
      else 0
  }

  ghost predicate HasRole(n: Net, p: Plug, role: Role) {
    p.sw in n.switches && p.port in n.switches[p.sw].inst.ports && n.switches[p.sw].inst.ports[p.port].role == role
  }

  /** Every cable has one Designated end; its ends agree on the root and nearly on the cost. */
  lemma CableFacts(n: Net, p: Plug, now: nat)
    requires Stable(n, now) && p in n.peer
    ensures var q := n.peer[p];
            && p.sw in n.switches && q.sw in n.switches && q in n.peer && n.peer[q] == p && q.sw != p.sw
            && (HasRole(n, p, Designated) <==> !HasRole(n, q, Designated))
            && RootIdOf(n, p.sw) == RootIdOf(n, q.sw)
            && RootCostOf(n, p.sw) <= RootCostOf(n, q.sw) + CostOf(n, p)
            && (HasRole(n, p, Root) <==> n.switches[p.sw].inst.rootPort == Some(p.port))
            && (HasRole(n, p, Root) ==>
                  RootCostOf(n, p.sw) == RootCostOf(n, q.sw) + CostOf(n, p) && HasRole(n, q, Designated))
            && CostOf(n, p) >= 1
  {
    CableLinks(n, p, now);
    var a, b := EndOf(n, p), EndOf(n, n.peer[p]);
    OneDesignatedEnd(a, b);
    EndsAgree(a, b);
  }

  /** A switch's root port is cabled. */
  lemma RootPortCabled(n: Net, v: Switch, now: nat)
    requires Stable(n, now) && v in n.switches
    ensures n.switches[v].inst.rootPort.Some? ==>
              Plug(v, n.switches[v].inst.rootPort.value) in n.peer
              && HasRole(n, Plug(v, n.switches[v].inst.rootPort.value), Root)
    ensures n.switches[v].inst.rootPort.None? ==> RootIdOf(n, v) == n.switches[v].cfg.bridge && RootCostOf(n, v) == 0
    ensures RootIdOf(n, v) <= n.switches[v].cfg.bridge
  {
    assert FixedPoint(n, v, now);
    OwnClaim(n, v, now);
    if n.switches[v].inst.rootPort.Some? {
      assert PortCurrent(n, v, n.switches[v].inst.rootPort.value);
      CableFacts(n, Plug(v, n.switches[v].inst.rootPort.value), now);
    }
  }

  // ------------------------------------------------------------------------------- walks

  /** `hops` are the ports left on the way from `v` to `w`. */
  ghost predicate Walk(n: Net, v: Switch, hops: seq<Plug>, w: Switch)
    decreases |hops|
  {
    if hops == [] then v == w && v in n.switches
    else hops[0] in n.peer && hops[0].sw == v && Walk(n, n.peer[hops[0]].sw, hops[1..], w)
  }

  /** Total cost of the ports on the way, each charged at the end farther from the destination. */
  ghost function WalkCost(n: Net, hops: seq<Plug>): nat
    decreases |hops|
  {
    if hops == [] then 0 else CostOf(n, hops[0]) + WalkCost(n, hops[1..])
  }

  /** Switches joined by any walk agree on the root, and their costs differ by at most the walk. */
  lemma {:induction false} WalkBounds(n: Net, v: Switch, hops: seq<Plug>, w: Switch, now: nat)
    requires Stable(n, now) && Walk(n, v, hops, w)
    ensures v in n.switches && w in n.switches && RootIdOf(n, v) == RootIdOf(n, w)
    ensures RootCostOf(n, v) <= RootCostOf(n, w) + WalkCost(n, hops)
    decreases |hops|
  {
    if hops != [] {
      CableFacts(n, hops[0], now);
      WalkBounds(n, n.peer[hops[0]].sw, hops[1..], w, now);
    }
  }

  ghost predicate AllRootPorts(n: Net, hops: seq<Plug>) {
    forall i :: 0 <= i < |hops| ==> HasRole(n, hops[i], Root)
  }

  /** `path` follows Root ports from `v` to the switch `r` whose own id is the root id. */
  ghost predicate RootPath(n: Net, v: Switch, path: seq<Plug>, r: Switch) {
    && v in n.switches && r in n.switches && Walk(n, v, path, r) && AllRootPorts(n, path)
    && n.switches[r].cfg.bridge == RootIdOf(n, v) && RootCostOf(n, r) == 0
    && WalkCost(n, path) == RootCostOf(n, v)
  }

  /** Following Root ports leads, at exactly the advertised cost, to the root bridge. */
  lemma {:induction false} PathToRoot(n: Net, v: Switch, now: nat) returns (path: seq<Plug>, r: Switch)
    requires Stable(n, now) && v in n.switches
    ensures RootPath(n, v, path, r)
    decreases RootCostOf(n, v)
  {
    RootPortCabled(n, v, now);
    if n.switches[v].inst.rootPort.None? {
      path, r := [], v;
    } else {
      var p := Plug(v, n.switches[v].inst.rootPort.value);
      CableFacts(n, p, now);
      var rest;
      rest, r := PathToRoot(n, n.peer[p].sw, now);
      path := [p] + rest;
      assert path[1..] == rest;
    }
  }

  // ---------------------------------------------------------------------------- theorems

  ghost predicate Connected(n: Net, v: Switch, w: Switch) {
    exists hops :: Walk(n, v, hops, w)
  }

  /** All switches that can reach each other hold the least bridge id among them as root. */
  lemma OneRoot(n: Net, v: Switch, w: Switch, now: nat)
    requires Stable(n, now) && v in n.switches && Connected(n, v, w)
    ensures w in n.switches && RootIdOf(n, v) == RootIdOf(n, w) <= n.switches[w].cfg.bridge
    ensures exists r :: r in n.switches && Connected(n, v, r) && n.switches[r].cfg.bridge == RootIdOf(n, v)
  {
    var hops :| Walk(n, v, hops, w);
    WalkBounds(n, v, hops, w, now);
    RootPortCabled(n, w, now);
    var path, r := PathToRoot(n, v, now);
    assert Connected(n, v, r);
  }

  /** The root cost of a switch is attained by a path of Root ports and is the least of any walk to the root. */
  lemma ShortestDistance(n: Net, v: Switch, now: nat)
    requires Stable(n, now) && v in n.switches
    ensures exists r, path :: RootPath(n, v, path, r)
    ensures forall r, hops :: Walk(n, v, hops, r) && r in n.switches && n.switches[r].cfg.bridge == RootIdOf(n, v) ==>
              RootCostOf(n, v) <= WalkCost(n, hops)
  {
    var path, r := PathToRoot(n, v, now);
    forall s, hops | Walk(n, v, hops, s) && s in n.switches && n.switches[s].cfg.bridge == RootIdOf(n, v)
      ensures RootCostOf(n, v) <= WalkCost(n, hops)
    {
      WalkBounds(n, v, hops, s, now);
      assert s == r;
    }
  }

  // -------------------------------------------------------------------------------- tree

  /** A cable of the tree: one of its ends is a Root port. */
  ghost predicate TreeCable(n: Net, p: Plug) {
    p in n.peer && (HasRole(n, p, Root) || HasRole(n, n.peer[p], Root))
  }

  ghost function NextHop(hops: seq<Plug>, i: nat): Plug
    requires i < |hops|
  {
    if i + 1 == |hops| then hops[0] else hops[i + 1]
  }

  /** Hop `i` is a tree cable, followed by a hop from where it ends that is not straight back. */
  ghost predicate TreeTurn(n: Net, hops: seq<Plug>, i: nat)
    requires i < |hops|
  {
    && TreeCable(n, hops[i])
    && n.peer[hops[i]].sw == NextHop(hops, i).sw && NextHop(hops, i) != n.peer[hops[i]]
  }

  /** A closed walk over tree cables that never goes straight back. */
  ghost predicate TreeCycle(n: Net, hops: seq<Plug>) {
    |hops| >= 1 && forall i {:trigger TreeTurn(n, hops, i)} :: 0 <= i < |hops| ==> TreeTurn(n, hops, i)
  }

  lemma FarthestHop(n: Net, hops: seq<Plug>, k: nat) returns (m: nat)
    requires 1 <= k <= |hops| && forall i :: 0 <= i < |hops| ==> hops[i].sw in n.switches
    ensures m < k
    ensures forall i :: 0 <= i < k ==> RootCostOf(n, hops[i].sw) <= RootCostOf(n, hops[m].sw)
  {
    m := 0;
    if k > 1 {
      m := FarthestHop(n, hops, k - 1);
      if RootCostOf(n, hops[m].sw) < RootCostOf(n, hops[k - 1].sw) {
        m := k - 1;
      }
    }
  }

  /** A tree cable meets the farther of its two switches at that switch's Root port. */
  lemma TreeCableUp(n: Net, p: Plug, now: nat)
    requires Stable(n, now) && TreeCable(n, p)
    ensures p.sw in n.switches && n.peer[p] in n.peer && n.peer[p].sw in n.switches && n.peer[n.peer[p]] == p
    ensures RootCostOf(n, n.peer[p].sw) <= RootCostOf(n, p.sw) ==> n.switches[p.sw].inst.rootPort == Some(p.port)
  {
    CableFacts(n, p, now);
    CableFacts(n, n.peer[p], now);
  }

  /** The tree cables contain no cycle: at its farthest switch a cycle would need two Root ports. */
  lemma NoTreeCycle(n: Net, hops: seq<Plug>, now: nat)
    requires Stable(n, now)
    ensures !TreeCycle(n, hops)
  {
    if TreeCycle(n, hops) {
      forall i | 0 <= i < |hops| ensures hops[i].sw in n.switches {
        assert TreeTurn(n, hops, i);
        TreeCableUp(n, hops[i], now);
      }
      var m := FarthestHop(n, hops, |hops|);
      var before := if m == 0 then |hops| - 1 else m - 1;
      assert TreeTurn(n, hops, before) && TreeTurn(n, hops, m) && NextHop(hops, before) == hops[m];
      TreeCableUp(n, hops[m], now);
      TreeCableUp(n, hops[before], now);
      TreeCableUp(n, n.peer[hops[before]], now);
    }
  }

  /**
   Root ports form a spanning tree: exactly the root has none, every other switch has exactly
   one, whose cable's other end is Designated and strictly nearer, and following such ports
   reaches the root.
   */
  lemma SpanningTree(n: Net, v: Switch, now: nat)
    requires Stable(n, now) && v in n.switches
    ensures var port := n.switches[v].inst.rootPort;
            && (port.None? <==> RootIdOf(n, v) == n.switches[v].cfg.bridge)
            && (forall p :: p in n.peer && p.sw == v ==> (HasRole(n, p, Root) <==> port == Some(p.port)))
            && (port.Some? ==>
                  var p := Plug(v, port.value);
                  && p in n.peer && HasRole(n, n.peer[p], Designated) && n.peer[p].sw in n.switches
                  && RootCostOf(n, n.peer[p].sw) < RootCostOf(n, v))
    ensures exists r, path :: RootPath(n, v, path, r)
  {
    RootPortCabled(n, v, now);
    var path, r := PathToRoot(n, v, now);
    forall p | p in n.peer && p.sw == v ensures HasRole(n, p, Root) <==> n.switches[v].inst.rootPort == Some(p.port) {
      CableFacts(n, p, now);
    }
    if n.switches[v].inst.rootPort.Some? {
      CableFacts(n, Plug(v, n.switches[v].inst.rootPort.value), now);
      assert RootCostOf(n, v) > 0;
      assert r != v;
    }
  }
}
