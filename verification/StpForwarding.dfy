/**
 When a port does forward: the state of every port in terms of its standing and its timer, and
 the converse of the thirty seconds of `StpTiming`, over whole runs of one switch.
 */
module StpForwarding {
  import opened Prelude
  import opened StpSpec
  import opened StpTiming

  /** What keeps a port closed whatever its timer says. */
  predicate Closed(r: Instance, p: Port) {
    Guarded(r.received, p) || (p in r.ports && r.ports[p].role == Alternate)
  }

  /** What opens a port without waiting. */
  predicate OpensAtOnce(cfg: Config, r: Instance, p: Port)
    requires p in cfg.settings
  {
    (cfg.settings[p].portfast && p !in r.received) || (cfg.rapid && p in r.agreed)
  }

  /** The four states of a port, each exactly when: 15 and 30 seconds after its transition time. */
  lemma StateExactly(cfg: Config, i: Instance, now: nat, p: Port)
    requires ValidConfig(cfg) && p in cfg.ports
    ensures var r := Recompute(cfg, i, now);
            && p in r.ports && p in r.transitions
            && var waited, closed, open := now - r.transitions[p], Closed(r, p), OpensAtOnce(cfg, r, p);
               && (r.ports[p].state == Forwarding <==> !closed && (open || waited >= 30_000_000))
               && (r.ports[p].state == Learning <==> !closed && !open && 15_000_000 <= waited < 30_000_000)
               && (r.ports[p].state == Listening <==> !closed && !open && waited < 15_000_000 && !cfg.rapid)
               && (r.ports[p].state == Blocking <==> closed || (!open && waited < 15_000_000 && cfg.rapid))
  {
    var r := Recompute(cfg, i, now);
    var c := Elect(cfg, r.received);
    var role := RoleOf(cfg, c, r.received, p);
    assert r.transitions[p] == Since(cfg, i, c, role, p, now);
    assert r.ports[p] == ViewOf(cfg, i, c, r.received, p, now);
    assert p in r.agreed <==> StillAgreed(cfg, i, c, role, p);
  }

  // ------------------------------------------------------------------ what restarts a timer

  /** Answering `b` on port `q` withdraws port `p`. */
  ghost predicate Withdraws(cfg: Config, stored: Instance, q: Port, b: Bpdu, p: Port)
    requires ValidConfig(cfg)
  {
    && q in stored.ports && stored.ports[q].role == Root && b.proposal && q !in stored.agreed
    && p in stored.ports && p != q && stored.ports[p].role == Designated && p in cfg.ports
    && !(cfg.settings[p].portfast && p !in stored.received)
  }

  /**
   The event itself restarts or forgets the timer of `p`: the instance is cleared, `p` is shut by
   its guard, its first vector arrives, or a synchronisation withdraws it.
   */
  ghost predicate Restarts(s: Sim, e: Event, p: Port) {
    Enabled(s, e) &&
    match e
    case Refresh(_, _) => false
    case Clear => true
    case Arrival(cfg, q, b, now) =>
      q in cfg.ports &&
      if cfg.settings[q].bpduGuard then q == p
      else
        b.vector.bridge != cfg.bridge &&
        var one := Recompute(cfg, s.inst, now);
        var two := Recompute(cfg, Store(cfg, one, q, b, now), now);
        || (q == p && p !in one.received)
        || (cfg.rapid && b.rapid && !Refused(cfg, one, q, b) && Withdraws(cfg, two, q, b, p))
  }

  /** Every recomputation of the event gives `p` the standing it has in `inst`. */
  ghost predicate Stands(s: Sim, e: Event, inst: Instance, p: Port) {
    Enabled(s, e) ==>
    match e
    case Refresh(cfg, now) => SameStanding(inst, Recompute(cfg, s.inst, now), p)
    case Clear => true
    case Arrival(cfg, q, b, now) =>
      q in cfg.ports && !cfg.settings[q].bpduGuard && b.vector.bridge != cfg.bridge ==>
        var one := Recompute(cfg, s.inst, now);
        var two := Recompute(cfg, Store(cfg, one, q, b, now), now);
        && SameStanding(inst, one, p) && SameStanding(inst, two, p)
        && (cfg.rapid && b.rapid && !Refused(cfg, one, q, b) ==>
              SameStanding(inst, Recompute(cfg, Handshake(cfg, two, q, b, now), now), p))
  }

  /** All along the run `p` stands as in `inst`, and nothing restarts its timer. */
  ghost predicate Undisturbed(s: Sim, events: seq<Event>, inst: Instance, p: Port)
    decreases |events|
  {
    events == [] ||
    (&& Stands(s, events[0], inst, p) && !Restarts(s, events[0], p)
     && Undisturbed(Step(s, events[0]), events[1..], inst, p))
  }

  /** The timer of `p` still shows `since`, under the standing of `inst`. */
  ghost predicate TimerHolds(inst: Instance, now: Instance, p: Port, since: nat) {
    SameStanding(inst, now, p) && p in now.transitions && now.transitions[p] == since
  }

  lemma RecomputeHolds(cfg: Config, i: Instance, now: nat, inst: Instance, p: Port, since: nat)
    requires ValidConfig(cfg) && TimerHolds(inst, i, p, since) && SameStanding(inst, Recompute(cfg, i, now), p)
    ensures TimerHolds(inst, Recompute(cfg, i, now), p, since)
  {
    var r := Recompute(cfg, i, now);
    var c := Elect(cfg, r.received);
    assert r.ports[p] == ViewOf(cfg, i, c, r.received, p, now);
    assert r.transitions[p] == Since(cfg, i, c, RoleOf(cfg, c, r.received, p), p, now);
  }

  lemma StoreHolds(cfg: Config, i: Instance, q: Port, b: Bpdu, now: nat, inst: Instance, p: Port, since: nat)
    requires q in cfg.settings && TimerHolds(inst, i, p, since) && (q == p ==> p in i.received)
    ensures TimerHolds(inst, Store(cfg, i, q, b, now), p, since)
  {
  }

  lemma HandshakeHolds(cfg: Config, i: Instance, q: Port, b: Bpdu, now: nat, inst: Instance, p: Port, since: nat)
    requires ValidConfig(cfg) && i.ports.Keys <= (set x | x in cfg.ports)
    requires TimerHolds(inst, i, p, since) && !Withdraws(cfg, i, q, b, p)
    ensures TimerHolds(inst, Handshake(cfg, i, q, b, now), p, since)
  {
  }

  lemma ArrivalHolds(s: Sim, cfg: Config, q: Port, b: Bpdu, now: nat, inst: Instance, p: Port, since: nat)
    requires ValidConfig(cfg) && Timely(s, now) && q in cfg.ports
    requires !cfg.settings[q].bpduGuard && b.vector.bridge != cfg.bridge
    requires TimerHolds(inst, s.inst, p, since)
    requires Stands(s, Arrival(cfg, q, b, now), inst, p) && !Restarts(s, Arrival(cfg, q, b, now), p)
    ensures TimerHolds(inst, Receive(cfg, s.inst, q, b, now).instance, p, since)
  {
    var one := Recompute(cfg, s.inst, now);
    var held := Store(cfg, one, q, b, now);
    var two := Recompute(cfg, held, now);
    RecomputeHolds(cfg, s.inst, now, inst, p, since);
    StoreHolds(cfg, one, q, b, now, inst, p, since);
    RecomputeHolds(cfg, held, now, inst, p, since);
    if cfg.rapid && b.rapid && !Refused(cfg, one, q, b) {
      HandshakeHolds(cfg, two, q, b, now, inst, p, since);
      RecomputeHolds(cfg, Handshake(cfg, two, q, b, now), now, inst, p, since);
    }
  }

  lemma StepHolds(s: Sim, e: Event, inst: Instance, p: Port, since: nat)
    requires TimerHolds(inst, s.inst, p, since) && Stands(s, e, inst, p) && !Restarts(s, e, p)
    ensures TimerHolds(inst, Step(s, e).inst, p, since)
  {
    if Enabled(s, e) {
      match e
      case Refresh(cfg, now) => RecomputeHolds(cfg, s.inst, now, inst, p, since);
      case Arrival(cfg, q, b, now) =>
        ArrivedIsReceive(s, cfg, q, b, now);
        if q in cfg.ports && !cfg.settings[q].bpduGuard && b.vector.bridge != cfg.bridge {
          ArrivalHolds(s, cfg, q, b, now, inst, p, since);
        }
      case Clear =>
    }
  }

  lemma {:induction false} RunHolds(s: Sim, events: seq<Event>, inst: Instance, p: Port, since: nat)
    requires TimerHolds(inst, s.inst, p, since) && Undisturbed(s, events, inst, p)
    ensures TimerHolds(inst, Run(s, events).inst, p, since)
    decreases |events|
  {
    if events != [] {
      StepHolds(s, events[0], inst, p, since);
      RunHolds(Step(s, events[0]), events[1..], inst, p, since);
    }
  }

  /** The timer of a standing port never shows a time after the last recomputation. */
  lemma TimerIsPast(s: Sim, p: Port)
    requires StpTiming.Invariant(s) && p in s.inst.ports
    ensures p in s.inst.transitions && s.history != []
    ensures s.inst.transitions[p] <= s.history[|s.history| - 1].now
  {
    assert Dated(s.history, s.inst, p);
    var i: nat :| SteadyFrom(s.history, i, s.inst, p) && s.history[i].now == s.inst.transitions[p];
    assert i < |s.history| - 1 ==> s.history[i].now <= s.history[|s.history| - 1].now;
  }

  /**
   A port that stands unchanged through every recomputation of thirty seconds, while nothing
   restarts its timer, is Forwarding at the next recomputation, unless it is Alternate or its
   vector is refused by root guard.
   */
  lemma SteadyPortForwards(before: seq<Event>, events: seq<Event>, cfg: Config, now: nat, p: Port)
    requires ValidConfig(cfg)
    requires var s := Run(Sim(EMPTY, []), before); var r := Recompute(cfg, Run(s, events).inst, now);
             && p in s.inst.ports && Undisturbed(s, events, s.inst, p)
             && SameStanding(s.inst, r, p) && !Closed(r, p)
             && s.history != [] && s.history[|s.history| - 1].now + 30_000_000 <= now
    ensures var r := Recompute(cfg, Run(Run(Sim(EMPTY, []), before), events).inst, now);
            r.ports[p].state == Forwarding
  {
    var s := Run(Sim(EMPTY, []), before);
    RunKeeps(Sim(EMPTY, []), before);
    TimerIsPast(s, p);
    var since := s.inst.transitions[p];
    RunHolds(s, events, s.inst, p, since);
    RecomputeHolds(cfg, Run(s, events).inst, now, s.inst, p, since);
    RecomputedKeys(cfg, Run(s, events).inst, now, p);
    StateExactly(cfg, Run(s, events).inst, now, p);
  }
}
