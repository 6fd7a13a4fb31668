/**
 One recomputation and one reception in full: what is kept, what is dropped, what restarts, and
 when the outside is told, each stated from the values before and after.
 */
module StpReception {
  import opened Prelude
  import opened StpSpec

  // ------------------------------------------------------------------------------ vectors

  /** The fields of a vector in their widths: 64, 32, 64 and 16 bits. */
  predicate Sized(v: Vector) {
    v.cost <= U32_MAX && v.bridge <= U64_MAX && v.port <= U16_MAX
  }

  /** The vector as one number, the root first. */
  function Packed(v: Vector): nat {
    ((v.root * 0x1_0000_0000 + v.cost) * 0x1_0000_0000_0000_0000 + v.bridge) * 0x1_0000 + v.port
  }

  /** The better vector is the smaller number; of equal vectors the smaller local port is better. */
  lemma BetterIsSmaller(a: Path, b: Path)
    requires Sized(a.vector) && Sized(b.vector) && a.local <= U16_MAX && b.local <= U16_MAX
    ensures Better(a.vector, b.vector) <==> Packed(a.vector) < Packed(b.vector)
    ensures BetterPath(a, b) <==>
            Packed(a.vector) * 0x1_0000 + a.local < Packed(b.vector) * 0x1_0000 + b.local
  {
  }

  // ------------------------------------------------------------------------- recomputation

  /** The election came out as it stood. */
  predicate SameElection(i: Instance, r: Instance) {
    r.rootId == i.rootId && r.rootCost == i.rootCost && r.rootPort == i.rootPort
  }

  /** The port is up with the role it had, under the election that stood. */
  predicate Undisturbed(i: Instance, r: Instance, p: Port) {
    SameElection(i, r) && p in i.ports && p in r.ports && i.ports[p].role == r.ports[p].role
  }

  /**
   What a recomputation makes of one port: its vector lives until it expires, an agreement until
   the election or the role changes, and the timer restarts in just those cases.
   */
  lemma RecomputesPort(cfg: Config, i: Instance, now: nat, p: Port)
    requires ValidConfig(cfg)
    ensures var r := Recompute(cfg, i, now);
            && (p in r.ports <==> p in cfg.ports) && (p in r.transitions <==> p in cfg.ports)
            && (p in r.received <==> p in cfg.ports && p in i.received && now < i.received[p].expiresAt)
            && (p in r.received ==> r.received[p] == i.received[p])
            && (p in r.agreed <==> p in cfg.ports && p in i.agreed && Undisturbed(i, r, p))
            && (p in cfg.ports ==>
                  r.transitions[p] == if Undisturbed(i, r, p) && p in i.transitions then i.transitions[p] else now)
  {
    var r := Recompute(cfg, i, now);
    var c := Elect(cfg, r.received);
    if p in cfg.ports {
      assert r.ports[p] == ViewOf(cfg, i, c, r.received, p, now);
      assert r.transitions[p] == Since(cfg, i, c, RoleOf(cfg, c, r.received, p), p, now);
      assert p in r.agreed <==> StillAgreed(cfg, i, c, RoleOf(cfg, c, r.received, p), p);
    }
  }

  /** Addresses are kept exactly when the election stands and no port has lost the view it had. */
  lemma FlushExactly(before: Instance, after: Instance)
    ensures !MustFlush(before, after) <==> SameElection(before, after) && before.ports.Items <= after.ports.Items
  {
    if SameElection(before, after) && before.ports.Items <= after.ports.Items {
      forall p | p in before.ports ensures p in after.ports && after.ports[p] == before.ports[p] {
        assert (p, before.ports[p]) in before.ports.Items;
      }
    }
  }

  // ----------------------------------------------------------------------------- storing

  /**
   A vector lives for what is left of its maximum age, and in rapid mode for no more than three
   hello times, in whole microseconds; the wire counts in 1/256 s.
   */
  lemma LifetimeExactly(b: Bpdu, us: nat)
    ensures us <= Lifetime(b) <==>
            && (us == 0 || us * 256 <= (b.maxAge - b.messageAge) * 1_000_000)
            && (b.rapid ==> us * 256 <= b.helloTime * 3_000_000)
  {
  }

  /** Root guard refuses exactly a neighbour whose vector beats what this switch announces itself. */
  lemma RefusedExactly(cfg: Config, i: Instance, p: Port, b: Bpdu)
    requires p in cfg.settings
    ensures Refused(cfg, i, p, b) <==>
            && cfg.settings[p].rootGuard
            && Better(b.vector.(port := 0), Vector(i.rootId, i.rootCost, cfg.bridge, 0))
  {
  }

  /** A stored vector concerns its own port alone, whose timer starts if it held none. */
  lemma StoreExactly(cfg: Config, i: Instance, p: Port, b: Bpdu, now: nat, q: Port)
    requires p in cfg.settings
    ensures var r := Store(cfg, i, p, b, now);
            && r == i.(received := r.received, transitions := r.transitions)
            && p in r.received && r.received[p].bpdu == b
            && (r.received[p].guarded <==> Refused(cfg, i, p, b))
            && r.received[p].expiresAt == SatAdd64(now, Lifetime(b))
            && (q != p ==>
                  (q in r.received <==> q in i.received) && (q in i.received ==> r.received[q] == i.received[q]))
            && (if q == p && p !in i.received then q in r.transitions && r.transitions[q] == now
                else (q in r.transitions <==> q in i.transitions)
                     && (q in i.transitions ==> r.transitions[q] == i.transitions[q]))
  {
  }

  // ---------------------------------------------------------------------------- agreeing

  /** The packet asks this root port to agree, which it has not done yet. */
  predicate Answers(i: Instance, p: Port, b: Bpdu) {
    p in i.ports && i.ports[p].role == Root && b.proposal && p !in i.agreed
  }

  /** The packet is the agreement a designated port waits for: from a root port, no nearer to the same root. */
  predicate Concedes(i: Instance, p: Port, b: Bpdu) {
    && p in i.ports && i.ports[p].role == Designated && b.agreement && b.fromRoot
    && b.vector.root == i.rootId && i.rootCost <= b.vector.cost
  }

  /** A designated port that is no edge gives way when another port agrees. */
  predicate GivesWay(cfg: Config, i: Instance, p: Port, b: Bpdu, q: Port)
    requires ValidConfig(cfg)
  {
    && Answers(i, p, b) && q in i.ports && q != p && i.ports[q].role == Designated
    && !(q in cfg.ports && Edge(cfg, i.received, q))
  }

  /** Who has agreed after the handshake, and whose timer restarts. */
  lemma HandshakeExactly(cfg: Config, i: Instance, p: Port, b: Bpdu, now: nat, q: Port)
    requires ValidConfig(cfg) && i.ports.Keys <= (set x | x in cfg.ports)
    ensures var r := Handshake(cfg, i, p, b, now);
            && r == i.(agreed := r.agreed, transitions := r.transitions)
            && (q in r.agreed <==>
                  || (q == p && (Answers(i, p, b) || Concedes(i, p, b)))
                  || (q in i.agreed && !GivesWay(cfg, i, p, b, q)))
            && (if GivesWay(cfg, i, p, b, q) then q in r.transitions && r.transitions[q] == now
                else (q in r.transitions <==> q in i.transitions)
                     && (q in i.transitions ==> r.transitions[q] == i.transitions[q]))
  {
  }

  /** A port comes to agree only by a rapid packet on it that root guard lets pass, on a rapid switch. */
  lemma AgreesOnlyRapidly(cfg: Config, i: Instance, p: Port, b: Bpdu, now: nat, q: Port)
    requires ValidConfig(cfg) && q in Receive(cfg, i, p, b, now).instance.agreed && q !in i.agreed
    ensures q == p && cfg.rapid && b.rapid && !Refused(cfg, Recompute(cfg, i, now), p, b)
  {
    var one := Recompute(cfg, i, now);
    var two := Recompute(cfg, Store(cfg, one, p, b, now), now);
    RecomputesPort(cfg, i, now, q);
    RecomputesPort(cfg, Store(cfg, one, p, b, now), now, q);
    if cfg.rapid && b.rapid && !Refused(cfg, one, p, b) {
      RecomputesPort(cfg, Handshake(cfg, two, p, b, now), now, q);
      HandshakeExactly(cfg, two, p, b, now, q);
    }
  }

  // --------------------------------------------------------------------------- reporting

  /** The outside is told exactly of a changed root, port view or agreement, or of a proposal to answer. */
  lemma ReportsExactly(cfg: Config, i: Instance, p: Port, b: Bpdu, now: nat)
    requires ValidConfig(cfg) && p in cfg.ports && !cfg.settings[p].bpduGuard && b.vector.bridge != cfg.bridge
    ensures var before, r := Recompute(cfg, i, now), Receive(cfg, i, p, b, now);
            !r.report <==>
              && r.instance == before.(rootCost := r.instance.rootCost, transitions := r.instance.transitions,
                                       received := r.instance.received)
              && (b.rapid && b.proposal ==> r.instance.rootPort != Some(p))
  {
  }

  /** A guarded port is shut and forgotten on any packet, and a packet of our own changes nothing. */
  lemma ShutExactly(cfg: Config, i: Instance, p: Port, b: Bpdu, now: nat, q: Port)
    requires ValidConfig(cfg) && (p !in cfg.ports || cfg.settings[p].bpduGuard || b.vector.bridge == cfg.bridge)
    ensures var r, shut := Receive(cfg, i, p, b, now), p in cfg.ports && cfg.settings[p].bpduGuard;
            && r.report == shut
            && r.instance == i.(received := r.instance.received, ports := r.instance.ports, agreed := r.instance.agreed)
            && (q in r.instance.received <==> q in i.received && !(shut && q == p))
            && (q in r.instance.ports <==> q in i.ports && !(shut && q == p))
            && (q in r.instance.agreed <==> q in i.agreed && !(shut && q == p))
            && (q in r.instance.received ==> r.instance.received[q] == i.received[q])
            && (q in r.instance.ports ==> r.instance.ports[q] == i.ports[q])
  {
  }
}
