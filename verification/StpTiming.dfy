/**
 When a port may forward: over whole runs of one switch, with configuration changes, BPDUs
 and refreshes in any order, and in the single step of a rapid synchronisation.
 */
module StpTiming {
  import opened Prelude
  import opened StpSpec

  /** The outcome of one recomputation. */
  datatype Snapshot = Snapshot(cfg: Config, inst: Instance, now: nat)

  datatype Event =
    | Refresh(cfg: Config, now: nat)
    | Arrival(cfg: Config, port: Port, bpdu: Bpdu, now: nat)
    | Clear

  /** The instance and every recomputation it has been through. */
  datatype Sim = Sim(inst: Instance, history: seq<Snapshot>)

  const EMPTY := Instance({}, map[], 0, 0, None, map[], map[])

  ghost function Recomputed(s: Sim, cfg: Config, now: nat): Sim
    requires ValidConfig(cfg)
  {
    var r := Recompute(cfg, s.inst, now);
    Sim(r, s.history + [Snapshot(cfg, r, now)])
  }

  ghost function Arrived(s: Sim, cfg: Config, p: Port, b: Bpdu, now: nat): Sim
    requires ValidConfig(cfg)
  {
    if p !in cfg.ports then s
    else if cfg.settings[p].bpduGuard then Sim(Forget(s.inst, p), s.history)
    else if b.vector.bridge == cfg.bridge then s
    else
      var one := Recomputed(s, cfg, now);
      var two := Recomputed(Sim(Store(cfg, one.inst, p, b, now), one.history), cfg, now);
      if cfg.rapid && b.rapid && !Refused(cfg, one.inst, p, b) then
        Recomputed(Sim(Handshake(cfg, two.inst, p, b, now), two.history), cfg, now)
      else two
  }

  /** The history follows exactly the recomputations of `Receive`. */
  lemma ArrivedIsReceive(s: Sim, cfg: Config, p: Port, b: Bpdu, now: nat)
    requires ValidConfig(cfg)
    ensures Arrived(s, cfg, p, b, now).inst == Receive(cfg, s.inst, p, b, now).instance
  {
  }

  ghost predicate Timely(s: Sim, now: nat) {
    s.history == [] || s.history[|s.history| - 1].now <= now
  }

  ghost predicate Enabled(s: Sim, e: Event) {
    match e
    case Refresh(cfg, now) => ValidConfig(cfg) && Timely(s, now)
    case Arrival(cfg, _, _, now) => ValidConfig(cfg) && Timely(s, now)
    case Clear => true
  }

  ghost function Step(s: Sim, e: Event): Sim {
    if !Enabled(s, e) then s
    else
      match e
      case Refresh(cfg, now) => Recomputed(s, cfg, now)
      case Arrival(cfg, p, b, now) => Arrived(s, cfg, p, b, now)
      case Clear => Sim(EMPTY, s.history)
  }

  ghost function Run(s: Sim, events: seq<Event>): Sim
    decreases |events|
  {
    if events == [] then s else Run(Step(s, events[0]), events[1..])
  }

  // --------------------------------------------------------------------------- steadiness

  /** Two recomputations give port `p` the same role under the same root, cost and root port. */
  ghost predicate SameStanding(a: Instance, b: Instance, p: Port) {
    && p in a.ports && p in b.ports && a.ports[p].role == b.ports[p].role
    && a.rootId == b.rootId && a.rootCost == b.rootCost && a.rootPort == b.rootPort
  }

  /** Port `p` has stood as it stands in `now` in every recomputation from the `i`th on. */
  ghost predicate SteadyFrom(history: seq<Snapshot>, i: nat, inst: Instance, p: Port) {
    i < |history| && forall k :: i <= k < |history| ==> SameStanding(history[k].inst, inst, p)
  }

  /** The recorded transition time is the time of a recomputation since which the port is steady. */
  ghost predicate Dated(history: seq<Snapshot>, inst: Instance, p: Port) {
    p in inst.transitions && exists i: nat :: SteadyFrom(history, i, inst, p) && history[i].now == inst.transitions[p]
  }

  ghost predicate Ordered(history: seq<Snapshot>) {
    forall i, j :: 0 <= i < j < |history| ==> history[i].now <= history[j].now
  }

  ghost predicate Invariant(s: Sim) {
    Ordered(s.history) && forall p :: p in s.inst.ports ==> Dated(s.history, s.inst, p)
  }

  /** A port's timer restarts unless the port stands exactly as before; enough time is needed to forward. */
  lemma RecomputedFields(cfg: Config, i: Instance, now: nat, p: Port)
    requires ValidConfig(cfg) && p in cfg.ports
    ensures var r := Recompute(cfg, i, now);
            && p in r.ports && p in r.transitions
            && (r.transitions[p] != now ==>
                  SameStanding(i, r, p) && p in i.transitions && i.transitions[p] == r.transitions[p])
            && (r.ports[p].state == Forwarding && !Edge(cfg, r.received, p) && !(cfg.rapid && p in r.agreed) ==>
                  r.transitions[p] + 2 * FORWARD_DELAY_US <= now)
  {
    var r := Recompute(cfg, i, now);
    var c := Elect(cfg, r.received);
    var role := RoleOf(cfg, c, r.received, p);
    assert r.transitions[p] == Since(cfg, i, c, role, p, now);
    assert r.ports[p] == ViewOf(cfg, i, c, r.received, p, now);
    assert p in r.agreed <==> StillAgreed(cfg, i, c, role, p);
  }

  lemma RecomputedKeys(cfg: Config, i: Instance, now: nat, p: Port)
    requires ValidConfig(cfg)
    ensures p in Recompute(cfg, i, now).ports <==> p in cfg.ports
    ensures p in Recompute(cfg, i, now).transitions <==> p in cfg.ports
  {
  }

  lemma DatedExtends(s: Sim, last: Snapshot, p: Port)
    requires p in s.inst.ports ==> Dated(s.history, s.inst, p)
    requires p in last.inst.ports && p in last.inst.transitions
    requires last.inst.transitions[p] != last.now ==>
               SameStanding(s.inst, last.inst, p) && p in s.inst.transitions
               && s.inst.transitions[p] == last.inst.transitions[p]
    ensures Dated(s.history + [last], last.inst, p)
  {
    var history := s.history + [last];
    if last.inst.transitions[p] == last.now {
      assert SteadyFrom(history, |s.history|, last.inst, p);
    } else {
      var i: nat :| SteadyFrom(s.history, i, s.inst, p) && s.history[i].now == s.inst.transitions[p];
      forall k | i <= k < |history| ensures SameStanding(history[k].inst, last.inst, p) {
        if k < |s.history| {
          assert SameStanding(s.history[k].inst, s.inst, p);
        }
      }
      assert SteadyFrom(history, i, last.inst, p);
    }
  }

  lemma RecomputedPort(s: Sim, cfg: Config, now: nat, p: Port)
    requires Invariant(s) && ValidConfig(cfg) && p in cfg.ports
    ensures Dated(Recomputed(s, cfg, now).history, Recompute(cfg, s.inst, now), p)
  {
    RecomputedFields(cfg, s.inst, now, p);
    DatedExtends(s, Snapshot(cfg, Recompute(cfg, s.inst, now), now), p);
  }

  lemma OrderedExtends(s: Sim, last: Snapshot)
    requires Ordered(s.history) && Timely(s, last.now)
    ensures Ordered(s.history + [last])
  {
  }

  /** The last recomputation in the history is the present instance, at time `now`. */
  ghost predicate JustRecomputed(s: Sim, now: nat) {
    s.history != [] && s.history[|s.history| - 1].now == now && s.history[|s.history| - 1].inst == s.inst
  }

  lemma RecomputedKeeps(s: Sim, cfg: Config, now: nat)
    requires Invariant(s) && ValidConfig(cfg) && Timely(s, now)
    ensures Invariant(Recomputed(s, cfg, now)) && Timely(Recomputed(s, cfg, now), now)
    ensures JustRecomputed(Recomputed(s, cfg, now), now)
  {
    var r := Recompute(cfg, s.inst, now);
    OrderedExtends(s, Snapshot(cfg, r, now));
    forall p | p in r.ports ensures Dated(Recomputed(s, cfg, now).history, r, p) {
      RecomputedKeys(cfg, s.inst, now, p);
      RecomputedPort(s, cfg, now, p);
    }
  }

  /** Between two recomputations at one time, timers may only be set to that time. */
  lemma RestampKeeps(s: Sim, inst: Instance, now: nat)
    requires Invariant(s) && JustRecomputed(s, now)
    requires inst.ports == s.inst.ports && inst.rootId == s.inst.rootId
             && inst.rootCost == s.inst.rootCost && inst.rootPort == s.inst.rootPort
    requires forall p :: p in s.inst.ports ==>
               p in inst.transitions && (inst.transitions[p] == s.inst.transitions[p] || inst.transitions[p] == now)
    ensures Invariant(Sim(inst, s.history))
  {
  }

  /** Storing a BPDU or answering it only touches timers, agreements and stored vectors. */
  lemma HandlingRestamps(cfg: Config, i: Instance, p: Port, b: Bpdu, now: nat)
    requires ValidConfig(cfg) && p in cfg.ports && i.ports.Keys <= (set q | q in cfg.ports)
    requires forall q :: q in i.ports ==> q in i.transitions
    ensures forall j :: j == Store(cfg, i, p, b, now) || j == Handshake(cfg, i, p, b, now) ==>
              && j.ports == i.ports && j.rootId == i.rootId && j.rootCost == i.rootCost && j.rootPort == i.rootPort
              && forall q :: q in i.ports ==>
                   q in j.transitions && (j.transitions[q] == i.transitions[q] || j.transitions[q] == now)
  {
  }

  lemma HandlingKeeps(s: Sim, cfg: Config, p: Port, b: Bpdu, now: nat)
    requires Invariant(s) && ValidConfig(cfg) && Timely(s, now) && p in cfg.ports
    ensures var one := Recomputed(s, cfg, now);
            && Invariant(one) && one.inst.ports.Keys <= (set q | q in cfg.ports)
            && Invariant(Sim(Store(cfg, one.inst, p, b, now), one.history))
            && Invariant(Sim(Handshake(cfg, one.inst, p, b, now), one.history))
            && Timely(one, now)
  {
    var one := Recomputed(s, cfg, now);
    RecomputedKeeps(s, cfg, now);
    forall q ensures q in one.inst.ports ==> q in cfg.ports && q in one.inst.transitions {
      RecomputedKeys(cfg, s.inst, now, q);
    }
    HandlingRestamps(cfg, one.inst, p, b, now);
    RestampKeeps(one, Store(cfg, one.inst, p, b, now), now);
    RestampKeeps(one, Handshake(cfg, one.inst, p, b, now), now);
  }

  lemma ArrivedKeeps(s: Sim, cfg: Config, p: Port, b: Bpdu, now: nat)
    requires Invariant(s) && ValidConfig(cfg) && Timely(s, now) && p in cfg.ports
    requires !cfg.settings[p].bpduGuard && b.vector.bridge != cfg.bridge
    ensures Invariant(Arrived(s, cfg, p, b, now))
  {
    var one := Recomputed(s, cfg, now);
    HandlingKeeps(s, cfg, p, b, now);
    var mid := Sim(Store(cfg, one.inst, p, b, now), one.history);
    var two := Recomputed(mid, cfg, now);
    HandlingKeeps(mid, cfg, p, b, now);
    RecomputedKeeps(Sim(Handshake(cfg, two.inst, p, b, now), two.history), cfg, now);
  }

  lemma ForgetKeeps(s: Sim, p: Port)
    requires Invariant(s)
    ensures Invariant(Sim(Forget(s.inst, p), s.history))
  {
  }

  lemma StepKeeps(s: Sim, e: Event)
    requires Invariant(s)
    ensures Invariant(Step(s, e))
  {
    if Enabled(s, e) {
      match e {
        case Refresh(cfg, now) => RecomputedKeeps(s, cfg, now);
        case Arrival(cfg, p, b, now) =>
          if p in cfg.ports {
            if cfg.settings[p].bpduGuard {
              ForgetKeeps(s, p);
            } else if b.vector.bridge != cfg.bridge {
              ArrivedKeeps(s, cfg, p, b, now);
            }
          }
        case Clear =>
      }
    }
  }

  lemma {:induction false} RunKeeps(s: Sim, events: seq<Event>)
    requires Invariant(s)
    ensures Invariant(Run(s, events))
    decreases |events|
  {
    if events != [] {
      StepKeeps(s, events[0]);
      RunKeeps(Step(s, events[0]), events[1..]);
    }
  }

  // ---------------------------------------------------------------------------- theorems

  /**
   In every run, a port that a recomputation leaves Forwarding, and that is neither an edge nor
   (in rapid mode) agreed, has kept its role under the same root, cost and root port in every
   recomputation of the last 30 seconds, the first of them at least that long ago.
   */
  lemma ForwardingNeedsThirtySeconds(events: seq<Event>, cfg: Config, now: nat, p: Port)
    requires var s := Run(Sim(EMPTY, []), events); ValidConfig(cfg) && Timely(s, now)
    requires p in cfg.ports
    requires var r := Recompute(cfg, Run(Sim(EMPTY, []), events).inst, now);
             && r.ports[p].state == Forwarding
             && !Edge(cfg, r.received, p) && !(cfg.rapid && p in r.agreed)
    ensures var s := Recomputed(Run(Sim(EMPTY, []), events), cfg, now);
            exists i: nat :: SteadyFrom(s.history, i, s.inst, p) && s.history[i].now + 2 * FORWARD_DELAY_US <= now
  {
    var s := Run(Sim(EMPTY, []), events);
    RunKeeps(Sim(EMPTY, []), events);
    RecomputedPort(s, cfg, now, p);
    RecomputedFields(cfg, s.inst, now, p);
  }

  /** Recomputing again at the same time elects the same root and keeps every role. */
  lemma SameElection(cfg: Config, i: Instance, j: Instance, now: nat)
    requires ValidConfig(cfg) && j.received == Recompute(cfg, i, now).received
    ensures FreshReceived(cfg, j.received, now) == j.received
    ensures Recompute(cfg, j, now).received == j.received
    ensures var r := Recompute(cfg, i, now); var s := Recompute(cfg, j, now);
            && s.rootId == r.rootId && s.rootCost == r.rootCost && s.rootPort == r.rootPort
            && forall p :: p in cfg.ports ==> s.ports[p].role == r.ports[p].role
  {
  }

  /**
   Rapid synchronisation: in the very step that first agrees a root port, that port opens and
   every other non-edge port of the VLAN ends up Blocking.
   */
  lemma SynchronisedBeforeOpening(cfg: Config, i: Instance, p: Port, b: Bpdu, now: nat)
    requires ValidConfig(cfg) && p in cfg.ports && p !in i.agreed
    requires var after := ReceiveForeign(cfg, i, p, b, now).instance;
             p in after.agreed && after.rootPort == Some(p)
    ensures var after := ReceiveForeign(cfg, i, p, b, now).instance;
            && after.ports[p] == PortView(Root, Forwarding)
            && forall q :: q in cfg.ports && q != p && !Edge(cfg, after.received, q) ==>
              after.ports[q].state == Blocking
  {
    var previous := Recompute(cfg, i, now);
    var held := Store(cfg, previous, p, b, now);
    var stored := Recompute(cfg, held, now);
    AgreementsShrink(cfg, i, p, now);
    AgreementsShrink(cfg, held, p, now);
    SynchronisedPorts(cfg, held, p, b, now);
  }

  lemma AgreementsShrink(cfg: Config, i: Instance, p: Port, now: nat)
    requires ValidConfig(cfg)
    ensures p in Recompute(cfg, i, now).agreed ==> p in i.agreed
  {
  }

  /** A restarted, unagreed port of a rapid bridge is Blocking unless it is an edge or the root port. */
  lemma BlockedPort(cfg: Config, i: Instance, q: Port, now: nat)
    requires ValidConfig(cfg) && q in cfg.ports && cfg.rapid
    requires var r := Recompute(cfg, i, now);
             && r.rootPort != Some(q) && !Edge(cfg, r.received, q)
             && (r.ports[q].role == Designated ==> q !in i.agreed && q in i.transitions && i.transitions[q] == now)
    ensures Recompute(cfg, i, now).ports[q].state == Blocking
  {
  }

  lemma SynchronisedPorts(cfg: Config, held: Instance, p: Port, b: Bpdu, now: nat)
    requires ValidConfig(cfg) && p in cfg.ports && cfg.rapid
    requires var stored := Recompute(cfg, held, now);
             var after := Recompute(cfg, Handshake(cfg, stored, p, b, now), now);
             p !in stored.agreed && p in after.agreed && after.rootPort == Some(p)
    ensures var stored := Recompute(cfg, held, now);
            var after := Recompute(cfg, Handshake(cfg, stored, p, b, now), now);
            && after.ports[p] == PortView(Root, Forwarding)
            && forall q :: q in cfg.ports && q != p && !Edge(cfg, after.received, q) ==>
              after.ports[q].state == Blocking
  {
    var stored := Recompute(cfg, held, now);
    var shaken := Handshake(cfg, stored, p, b, now);
    var after := Recompute(cfg, shaken, now);
    SameElection(cfg, held, shaken, now);
    OpenedPort(cfg, shaken, p, now);
    AgreementsShrink(cfg, shaken, p, now);
    RecomputedKeys(cfg, held, now, p);
    forall q | q in cfg.ports && q != p && !Edge(cfg, after.received, q) ensures after.ports[q].state == Blocking {
      RecomputedKeys(cfg, held, now, q);
      if after.ports[q].role == Designated {
        HandshakeWithdraws(cfg, stored, p, b, now, q);
      }
      BlockedPort(cfg, shaken, q, now);
    }
  }

  /** An agreement of a root port withdraws every other non-edge designated port. */
  lemma HandshakeWithdraws(cfg: Config, i: Instance, p: Port, b: Bpdu, now: nat, q: Port)
    requires ValidConfig(cfg) && i.ports.Keys <= (set x | x in cfg.ports) && q in cfg.ports
    requires p in i.ports && i.ports[p].role == Root && p !in i.agreed && p in Handshake(cfg, i, p, b, now).agreed
    requires q in i.ports && q != p && !Edge(cfg, i.received, q) && i.ports[q].role == Designated
    ensures var j := Handshake(cfg, i, p, b, now);
            q !in j.agreed && q in j.transitions && j.transitions[q] == now
  {
  }

  lemma OpenedPort(cfg: Config, i: Instance, p: Port, now: nat)
    requires ValidConfig(cfg) && p in cfg.ports && cfg.rapid
    requires var r := Recompute(cfg, i, now); p in r.agreed && r.rootPort == Some(p)
    ensures Recompute(cfg, i, now).ports[p] == PortView(Root, Forwarding)
  {
  }
}
