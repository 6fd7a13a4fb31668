/** The mutable per-VLAN instance, proved against `StpSpec`. */
module StpObject {
  import opened Prelude
  import opened StpSpec

  class StpInstance {
    var agreed: set<Port>
    var transitions: map<Port, nat>
    var rootId: nat
    var rootCost: nat
    var rootPort: Option<Port>
    var ports: map<Port, PortView>
    var received: map<Port, Received>

    ghost function Value(): Instance
      reads this
    {
      Instance(agreed, transitions, rootId, rootCost, rootPort, ports, received)
    }

    constructor ()
      ensures Value() == Instance({}, map[], 0, 0, None, map[], map[])
    {
      agreed, transitions, rootId, rootCost, rootPort := {}, map[], 0, 0, None;
      ports, received := map[], map[];
    }

    /** The port with the least path to the root, in one pass over the stored vectors. */
    method FindBest(cfg: Config) returns (best: Option<Port>)
      requires ValidConfig(cfg)
      ensures best == BestPort(cfg, received, |cfg.ports|)
    {
      best := None;
      for n := 0 to |cfg.ports|
        invariant best == BestPort(cfg, received, n)
      {
        var p := cfg.ports[n];
        if p in received && !received[p].guarded {
          if best.None? || BetterPath(PathVia(cfg, received, p), PathVia(cfg, received, best.value)) {
            best := Some(p);
          }
        }
      }
    }

    /** Settle one port: its role, whether an old agreement or timer survives, and its state. */
    method SettlePort(cfg: Config, c: Choice, previous: map<Port, PortView>, p: Port, now: nat)
      requires p in cfg.settings
      modifies this`agreed, this`transitions, this`ports
      ensures var role := RoleOf(cfg, c, received, p);
              var changed := RoleChanged(previous, p, role);
              && agreed == (if changed then old(agreed) - {p} else old(agreed))
              && transitions
                 == old(transitions)[p := if changed || p !in old(transitions) then now else old(transitions)[p]]
              && ports
                 == old(ports)[p := PortView(role, StateOf(cfg, role, received, p in agreed, p, transitions[p], now))]
    {
      var role := RoleOf(cfg, c, received, p);
      if p !in previous || previous[p].role != role {
        agreed := agreed - {p};
        transitions := transitions[p := now];
      }
      if p !in transitions {
        transitions := transitions[p := now];
      }
      var state := StateOf(cfg, role, received, p in agreed, p, transitions[p], now);
      ports := ports[p := PortView(role, state)];
    }

    /** Compare the best path offered with the bridge's own claim. */
    method Elect(cfg: Config) returns (c: Choice)
      requires ValidConfig(cfg)
      ensures c == StpSpec.Elect(cfg, received)
    {
      var best := FindBest(cfg);
      c := Choice(cfg.bridge, 0, None);
      if best.Some? {
        var path := PathVia(cfg, received, best.value);
        if BetterPath(path, Path(Vector(cfg.bridge, 0, cfg.bridge, 0), 0)) {
          c := Choice(path.vector.root, path.vector.cost, best);
        }
      }
    }

    /** Drop expired vectors and everything about ports that have left the VLAN. */
    method Prune(cfg: Config, now: nat)
      modifies this`received, this`agreed, this`transitions
      ensures received == FreshReceived(cfg, old(received), now)
      ensures agreed == set p | p in old(agreed) && p in cfg.ports
      ensures transitions == map p | p in old(transitions) && p in cfg.ports :: old(transitions)[p]
    {
      received := map p | p in received && p in cfg.ports && received[p].expiresAt > now :: received[p];
      agreed := set p | p in agreed && p in cfg.ports;
      transitions := map p | p in transitions && p in cfg.ports :: transitions[p];
    }

    /** Adopt the elected root; a change of root voids agreements and timers. */
    method Adopt(cfg: Config, c: Choice, ghost before: Instance) returns (rootChanged: bool)
      requires rootId == before.rootId && rootCost == before.rootCost && rootPort == before.rootPort
      requires agreed == set p | p in before.agreed && p in cfg.ports
      requires transitions == map p | p in before.transitions && p in cfg.ports :: before.transitions[p]
      modifies this`agreed, this`transitions, this`rootId, this`rootCost, this`rootPort
      ensures rootChanged == RootChanged(before, c)
      ensures agreed == KeptAgreed(cfg, before, c) && transitions == KeptTransitions(cfg, before, c)
      ensures rootId == c.rootId && rootCost == c.rootCost && rootPort == c.rootPort
    {
      rootChanged := rootId != c.rootId || rootPort != c.rootPort || rootCost != c.rootCost;
      if rootChanged {
        agreed := {};
        transitions := map[];
      }
      rootId, rootCost, rootPort := c.rootId, c.rootCost, c.rootPort;
    }

    /** Re-elect the root and settle every port; reports whether learned addresses are stale. */
    method Recompute(cfg: Config, now: nat) returns (flush: bool)
      requires ValidConfig(cfg)
      modifies this
      ensures Value() == StpSpec.Recompute(cfg, old(Value()), now)
      ensures flush <==> MustFlush(old(Value()), Value())
    {
      ghost var before := Value();
      Prune(cfg, now);
      var c := Elect(cfg);
      var rootChanged := Adopt(cfg, c, before);
      var previous := ports;
      SettlePorts(cfg, before, c, now);
      flush := rootChanged || exists p :: p in previous && (p !in ports || ports[p] != previous[p]);
    }

    /** The loop over the VLAN's ports. */
    method SettlePorts(cfg: Config, ghost before: Instance, c: Choice, now: nat)
      requires ValidConfig(cfg)
      requires agreed == KeptAgreed(cfg, before, c) && transitions == KeptTransitions(cfg, before, c)
      requires ports == before.ports
      modifies this`agreed, this`transitions, this`ports
      ensures agreed == set p | p in cfg.ports && StillAgreed(cfg, before, c, RoleOf(cfg, c, received, p), p)
      ensures transitions == map p | p in cfg.ports :: Since(cfg, before, c, RoleOf(cfg, c, received, p), p, now)
      ensures ports == map p | p in cfg.ports :: ViewOf(cfg, before, c, received, p, now)
    {
      var previous := ports;
      ports := map[];
      var n := 0;
      while n < |cfg.ports|
        invariant 0 <= n <= |cfg.ports|
        invariant Progress(cfg, before, c, received, now, n, agreed, transitions, ports)
      {
        ghost var a, t, v := agreed, transitions, ports;
        SettlePort(cfg, c, previous, cfg.ports[n], now);
        SettleStep(cfg, before, c, received, now, n, a, t, v, agreed, transitions, ports);
        n := n + 1;
      }
      AllSettled(cfg, before, c, received, now, agreed, transitions, ports);
    }

    method Store(cfg: Config, p: Port, b: Bpdu, guarded: bool, now: nat)
      requires p in cfg.settings && guarded == Refused(cfg, Value(), p, b)
      modifies this`transitions, this`received
      ensures Value() == StpSpec.Store(cfg, old(Value()), p, b, now)
    {
      if p !in received {
        transitions := transitions[p := now];
      }
      received := received[p := Received(b, guarded, SatAdd64(now, Lifetime(b)))];
    }

    /** Synchronise before agreeing to a proposal, or accept a neighbour's agreement. */
    method Handshake(cfg: Config, p: Port, b: Bpdu, now: nat)
      requires ValidConfig(cfg) && ports.Keys <= (set q | q in cfg.ports)
      modifies this`agreed, this`transitions
      ensures Value() == StpSpec.Handshake(cfg, old(Value()), p, b, now)
    {
      if p !in ports {
        return;
      }
      var role := ports[p].role;
      if role == Root && b.proposal {
        if p !in agreed {
          Synchronise(cfg, p, now);
          agreed := agreed + {p};
        }
      } else if role == Designated && b.agreement && b.fromRoot
                && b.vector.root == rootId && b.vector.cost >= rootCost {
        agreed := agreed + {p};
      }
    }

    /** Withdraw every other non-edge designated port from forwarding. */
    method Synchronise(cfg: Config, p: Port, now: nat)
      requires ValidConfig(cfg) && ports.Keys <= (set q | q in cfg.ports)
      modifies this`agreed, this`transitions
      ensures agreed == old(agreed) - MustSync(cfg, old(Value()), p)
      ensures transitions == old(transitions) + (map q | q in MustSync(cfg, old(Value()), p) :: now)
    {
      ghost var sync := MustSync(cfg, Value(), p);
      ghost var a, t := agreed, transitions;
      var rest := ports.Keys;
      while rest != {}
        invariant rest <= ports.Keys
        invariant Synced(a, t, sync - rest, now, agreed, transitions)
        decreases rest
      {
        var q :| q in rest;
        ghost var a0, t0 := agreed, transitions;
        if q != p && ports[q].role == Designated && !Edge(cfg, received, q) {
          agreed := agreed - {q};
          transitions := transitions[q := now];
        }
        SyncedStep(a, t, sync, rest, q, now, a0, t0, agreed, transitions);
        rest := rest - {q};
      }
      assert sync - {} == sync;
    }

    method ReceiveForeign(cfg: Config, p: Port, b: Bpdu, now: nat) returns (report: bool)
      requires ValidConfig(cfg) && p in cfg.ports
      modifies this
      ensures Reception(Value(), report) == StpSpec.ReceiveForeign(cfg, old(Value()), p, b, now)
    {
      var flush := Recompute(cfg, now);
      var rootIdBefore, rootPortBefore, portsBefore, agreedBefore := rootId, rootPort, ports, agreed;
      var guarded := Refused(cfg, Instance(agreed, transitions, rootId, rootCost, rootPort, ports, received), p, b);
      Store(cfg, p, b, guarded, now);
      flush := Recompute(cfg, now);
      if cfg.rapid && b.rapid && !guarded {
        Handshake(cfg, p, b, now);
        flush := Recompute(cfg, now);
      }
      report := || rootIdBefore != rootId || rootPortBefore != rootPort
                || portsBefore != ports || agreedBefore != agreed
                || (b.rapid && b.proposal && rootPort == Some(p));
    }

    /** Consume a BPDU; `report` asks the caller to announce a change at once. */
    method Receive(cfg: Config, p: Port, b: Bpdu, now: nat) returns (report: bool)
      requires ValidConfig(cfg)
      modifies this
      ensures Reception(Value(), report) == StpSpec.Receive(cfg, old(Value()), p, b, now)
    {
      if p !in cfg.ports {
        return false;
      }
      if cfg.settings[p].bpduGuard {
        received := received - {p};
        ports := ports - {p};
        agreed := agreed - {p};
        return true;
      }
      if b.vector.bridge == cfg.bridge {
        return false;
      }
      report := ReceiveForeign(cfg, p, b, now);
    }
  }

  /** The ports of `done` have been withdrawn. */
  ghost predicate Synced(a: set<Port>, t: map<Port, nat>, done: set<Port>, now: nat, agreed: set<Port>,
                         transitions: map<Port, nat>)
  {
    agreed == a - done && transitions == t + (map q | q in done :: now)
  }

  lemma SyncedStep(a: set<Port>, t: map<Port, nat>, sync: set<Port>, rest: set<Port>, q: Port, now: nat,
                   a0: set<Port>, t0: map<Port, nat>, a1: set<Port>, t1: map<Port, nat>)
    requires q in rest && Synced(a, t, sync - rest, now, a0, t0)
    requires if q in sync then a1 == a0 - {q} && t1 == t0[q := now] else a1 == a0 && t1 == t0
    ensures Synced(a, t, sync - (rest - {q}), now, a1, t1)
  {
  }

  /** Only ports of the VLAN are mentioned, and only the first `n` have a view. */
  ghost predicate Within(cfg: Config, n: nat, agreed: set<Port>, transitions: map<Port, nat>,
                         ports: map<Port, PortView>)
  {
    && n <= |cfg.ports|
    && (forall p :: p in ports ==> p in cfg.ports)
    && (forall p :: p in transitions ==> p in cfg.ports)
    && (forall p :: p in agreed ==> p in cfg.ports)
  }

  ghost predicate Settled(cfg: Config, before: Instance, c: Choice, received: map<Port, Received>, now: nat, p: Port,
                          agreed: set<Port>, transitions: map<Port, nat>, ports: map<Port, PortView>)
    requires p in cfg.settings
  {
    var role := RoleOf(cfg, c, received, p);
    && (p in agreed <==> StillAgreed(cfg, before, c, role, p))
    && p in transitions && transitions[p] == Since(cfg, before, c, role, p, now)
    && p in ports && ports[p] == ViewOf(cfg, before, c, received, p, now)
  }

  ghost predicate Untouched(cfg: Config, before: Instance, c: Choice, p: Port, agreed: set<Port>,
                            transitions: map<Port, nat>)
  {
    var kept := KeptTransitions(cfg, before, c);
    && (p in agreed <==> p in KeptAgreed(cfg, before, c))
    && (p in transitions <==> p in kept)
    && (p in kept ==> transitions[p] == kept[p])
  }

  /** Ports before `n` are settled, the others as the election left them. */
  ghost predicate Progress(cfg: Config, before: Instance, c: Choice, received: map<Port, Received>, now: nat, n: nat,
                           agreed: set<Port>, transitions: map<Port, nat>, ports: map<Port, PortView>) {
    && ValidConfig(cfg) && Within(cfg, n, agreed, transitions, ports)
    && (forall j :: 0 <= j < n ==> Settled(cfg, before, c, received, now, cfg.ports[j], agreed, transitions, ports))
    && (forall j :: n <= j < |cfg.ports| ==> Untouched(cfg, before, c, cfg.ports[j], agreed, transitions))
  }

  lemma SettledStays(cfg: Config, before: Instance, c: Choice, received: map<Port, Received>, now: nat, q: Port,
                     a: set<Port>, t: map<Port, nat>, v: map<Port, PortView>,
                     a': set<Port>, t': map<Port, nat>, v': map<Port, PortView>)
    requires q in cfg.settings && Settled(cfg, before, c, received, now, q, a, t, v)
    requires (q in a' <==> q in a) && q in t' && t'[q] == t[q] && q in v' && v'[q] == v[q]
    ensures Settled(cfg, before, c, received, now, q, a', t', v')
  {
  }

  lemma UntouchedStays(cfg: Config, before: Instance, c: Choice, q: Port,
                       a: set<Port>, t: map<Port, nat>, a': set<Port>, t': map<Port, nat>)
    requires Untouched(cfg, before, c, q, a, t)
    requires (q in a' <==> q in a) && (q in t' <==> q in t) && (q in t ==> t'[q] == t[q])
    ensures Untouched(cfg, before, c, q, a', t')
  {
  }

  /** Settling a port that the election left alone gives it its standing. */
  lemma SettledNow(cfg: Config, before: Instance, c: Choice, received: map<Port, Received>, now: nat, p: Port,
                   a: set<Port>, t: map<Port, nat>, a': set<Port>, t': map<Port, nat>, v': map<Port, PortView>)
    requires p in cfg.settings && Untouched(cfg, before, c, p, a, t)
    requires var role := RoleOf(cfg, c, received, p); var changed := RoleChanged(before.ports, p, role);
             && a' == (if changed then a - {p} else a)
             && p in t' && t'[p] == (if changed || p !in t then now else t[p])
             && p in v' && v'[p] == PortView(role, StateOf(cfg, role, received, p in a', p, t'[p], now))
    ensures Settled(cfg, before, c, received, now, p, a', t', v')
  {
  }

  lemma SettleStep(cfg: Config, before: Instance, c: Choice, received: map<Port, Received>, now: nat, n: nat,
                   a: set<Port>, t: map<Port, nat>, v: map<Port, PortView>,
                   a': set<Port>, t': map<Port, nat>, v': map<Port, PortView>)
    requires n < |cfg.ports| && Progress(cfg, before, c, received, now, n, a, t, v)
    requires var p := cfg.ports[n];
             var role := RoleOf(cfg, c, received, p);
             var changed := RoleChanged(before.ports, p, role);
             && a' == (if changed then a - {p} else a)
             && t' == t[p := if changed || p !in t then now else t[p]]
             && v' == v[p := PortView(role, StateOf(cfg, role, received, p in a', p, t'[p], now))]
    ensures Progress(cfg, before, c, received, now, n + 1, a', t', v')
  {
    var p := cfg.ports[n];
    assert Untouched(cfg, before, c, p, a, t);
    SettledNow(cfg, before, c, received, now, p, a, t, a', t', v');
    forall j | 0 <= j < n ensures Settled(cfg, before, c, received, now, cfg.ports[j], a', t', v') {
      assert Settled(cfg, before, c, received, now, cfg.ports[j], a, t, v);
      SettledStays(cfg, before, c, received, now, cfg.ports[j], a, t, v, a', t', v');
    }
    forall j | n + 1 <= j < |cfg.ports| ensures Untouched(cfg, before, c, cfg.ports[j], a', t') {
      assert Untouched(cfg, before, c, cfg.ports[j], a, t);
      UntouchedStays(cfg, before, c, cfg.ports[j], a, t, a', t');
    }
  }

  ghost predicate EverySettled(cfg: Config, before: Instance, c: Choice, received: map<Port, Received>, now: nat,
                               agreed: set<Port>, transitions: map<Port, nat>, ports: map<Port, PortView>)
    requires ValidConfig(cfg)
  {
    forall p {:trigger Settled(cfg, before, c, received, now, p, agreed, transitions, ports)} ::
      p in cfg.ports ==> Settled(cfg, before, c, received, now, p, agreed, transitions, ports)
  }

  lemma SettledAgreed(cfg: Config, before: Instance, c: Choice, received: map<Port, Received>, now: nat,
                      agreed: set<Port>, transitions: map<Port, nat>, ports: map<Port, PortView>)
    requires ValidConfig(cfg) && Within(cfg, |cfg.ports|, agreed, transitions, ports)
    requires EverySettled(cfg, before, c, received, now, agreed, transitions, ports)
    ensures agreed == set p | p in cfg.ports && StillAgreed(cfg, before, c, RoleOf(cfg, c, received, p), p)
  {
    forall p | p in cfg.ports ensures p in agreed <==> StillAgreed(cfg, before, c, RoleOf(cfg, c, received, p), p) {
      assert Settled(cfg, before, c, received, now, p, agreed, transitions, ports);
    }
  }

  lemma SettledSince(cfg: Config, before: Instance, c: Choice, received: map<Port, Received>, now: nat,
                     agreed: set<Port>, transitions: map<Port, nat>, ports: map<Port, PortView>)
    requires ValidConfig(cfg) && Within(cfg, |cfg.ports|, agreed, transitions, ports)
    requires EverySettled(cfg, before, c, received, now, agreed, transitions, ports)
    ensures transitions == map p | p in cfg.ports :: Since(cfg, before, c, RoleOf(cfg, c, received, p), p, now)
  {
    forall p | p in cfg.ports
      ensures p in transitions && transitions[p] == Since(cfg, before, c, RoleOf(cfg, c, received, p), p, now)
    {
      assert Settled(cfg, before, c, received, now, p, agreed, transitions, ports);
    }
  }

  lemma SettledViews(cfg: Config, before: Instance, c: Choice, received: map<Port, Received>, now: nat,
                     agreed: set<Port>, transitions: map<Port, nat>, ports: map<Port, PortView>)
    requires ValidConfig(cfg) && Within(cfg, |cfg.ports|, agreed, transitions, ports)
    requires EverySettled(cfg, before, c, received, now, agreed, transitions, ports)
    ensures ports == map p | p in cfg.ports :: ViewOf(cfg, before, c, received, p, now)
  {
    forall p | p in cfg.ports ensures p in ports && ports[p] == ViewOf(cfg, before, c, received, p, now) {
      assert Settled(cfg, before, c, received, now, p, agreed, transitions, ports);
    }
  }

  lemma AllSettled(cfg: Config, before: Instance, c: Choice, received: map<Port, Received>, now: nat,
                   agreed: set<Port>, transitions: map<Port, nat>, ports: map<Port, PortView>)
    requires ValidConfig(cfg) && Within(cfg, |cfg.ports|, agreed, transitions, ports)
    requires forall j :: 0 <= j < |cfg.ports| ==>
             Settled(cfg, before, c, received, now, cfg.ports[j], agreed, transitions, ports)
    ensures agreed == set p | p in cfg.ports && StillAgreed(cfg, before, c, RoleOf(cfg, c, received, p), p)
    ensures transitions == map p | p in cfg.ports :: Since(cfg, before, c, RoleOf(cfg, c, received, p), p, now)
    ensures ports == map p | p in cfg.ports :: ViewOf(cfg, before, c, received, p, now)
  {
    forall p | p in cfg.ports ensures Settled(cfg, before, c, received, now, p, agreed, transitions, ports) {
      var j :| 0 <= j < |cfg.ports| && cfg.ports[j] == p;
    }
    SettledAgreed(cfg, before, c, received, now, agreed, transitions, ports);
    SettledSince(cfg, before, c, received, now, agreed, transitions, ports);
    SettledViews(cfg, before, c, received, now, agreed, transitions, ports);
  }
}
