/** What translation guarantees over whole runs under one configuration. */
module NatRuns {
  import opened Prelude
  import opened NatSpec

  // ------------------------------------------------------------- complete port search

  /** How many steps the cursor needs to reach port `p`. */
  function Distance(cursor: nat, p: nat): int {
    if p >= cursor then p - cursor else p - cursor + PORTS
  }

  /** The ports a search tries, in order. */
  ghost function Visits(cursor: nat, tries: nat): (ports: seq<nat>)
    ensures |ports| == tries
    decreases tries
  {
    if tries == 0 then [] else [cursor] + Visits(NextPort(cursor), tries - 1)
  }

  /**
   The port at distance `k` is the one tried after `k` others, so no port is tried twice and a
   full search tries all.
  */
  lemma {:induction false} VisitsEachOnce(cursor: nat, tries: nat)
    requires PORT_FIRST <= cursor <= PORT_LAST && tries <= PORTS
    ensures var v := Visits(cursor, tries);
            && (forall k :: 0 <= k < tries ==> PORT_FIRST <= v[k] <= PORT_LAST && Distance(cursor, v[k]) == k)
            && (forall j, k :: 0 <= j < k < tries ==> v[j] != v[k])
            && (forall p :: PORT_FIRST <= p <= PORT_LAST && Distance(cursor, p) < tries ==> v[Distance(cursor, p)] == p)
    decreases tries
  {
    if tries > 0 {
      var next := NextPort(cursor);
      VisitsEachOnce(next, tries - 1);
      forall p | PORT_FIRST <= p <= PORT_LAST && p != cursor
        ensures Distance(next, p) == Distance(cursor, p) - 1
      {
      }
    }
  }

  ghost predicate AllTaken(c: Config, ts: seq<Translation>, ports: seq<nat>) {
    forall k :: 0 <= k < |ports| ==> PortTaken(c, ts, ports[k])
  }

  /** The search takes the first free port among those it visits, and moves the cursor past it. */
  lemma {:induction false} SearchVisits(c: Config, ts: seq<Translation>, cursor: nat, tries: nat)
    requires PORT_FIRST <= cursor <= PORT_LAST && tries <= PORTS
    ensures var found, v := SearchPort(c, ts, cursor, tries), Visits(cursor, tries);
            && PORT_FIRST <= found.cursor <= PORT_LAST
            && match found.port
               case None => AllTaken(c, ts, v)
               case Some(p) =>
                 && found.cursor == NextPort(p) && !PortTaken(c, ts, p)
                 && exists k :: 0 <= k < tries && v[k] == p && AllTaken(c, ts, v[..k])
    decreases tries
  {
    var v := Visits(cursor, tries);
    if tries > 0 {
      NextPortInRange(cursor);
      if PortTaken(c, ts, cursor) {
        var next := NextPort(cursor);
        SearchVisits(c, ts, next, tries - 1);
        var found, w := SearchPort(c, ts, next, tries - 1), Visits(next, tries - 1);
        assert v == [cursor] + w;
        if found.port.Some? {
          var k :| 0 <= k < tries - 1 && w[k] == found.port.value && AllTaken(c, ts, w[..k]);
          assert v[k + 1] == w[k] && v[..k + 1] == [cursor] + w[..k];
          assert AllTaken(c, ts, v[..k + 1]);
        }
      } else {
        assert v[0] == cursor && AllTaken(c, ts, v[..0]);
      }
    }
  }

  lemma NextPortInRange(cursor: nat)
    requires PORT_FIRST <= cursor <= PORT_LAST
    ensures PORT_FIRST <= NextPort(cursor) <= PORT_LAST
  {
  }

  /** A full search looks at every port once, wherever it starts: it fails exactly when none is free. */
  lemma PortSearchIsComplete(c: Config, ts: seq<Translation>, cursor: nat)
    requires PORT_FIRST <= cursor <= PORT_LAST
    ensures var found := SearchPort(c, ts, cursor, PORTS);
            && (found.port.None? <==> forall p :: PORT_FIRST <= p <= PORT_LAST ==> PortTaken(c, ts, p))
            && (found.port.Some? ==>
                  PORT_FIRST <= found.port.value <= PORT_LAST && !PortTaken(c, ts, found.port.value))
  {
    SearchVisits(c, ts, cursor, PORTS);
    VisitsEachOnce(cursor, PORTS);
    var found, v := SearchPort(c, ts, cursor, PORTS), Visits(cursor, PORTS);
    if found.port.None? {
      forall p | PORT_FIRST <= p <= PORT_LAST ensures PortTaken(c, ts, p) {
        assert v[Distance(cursor, p)] == p;
      }
    }
  }

  ghost function TakenPorts(c: Config, ts: seq<Translation>): set<nat> {
    (set i | 0 <= i < |ts| :: ts[i].globalPort)
    + (set i | 0 <= i < |c.statics| && c.statics[i].PortRule? :: c.statics[i].globalPort)
  }

  function PortRules(statics: seq<StaticRule>): nat {
    if statics == [] then 0
    else PortRules(statics[..|statics| - 1]) + (if statics[|statics| - 1].PortRule? then 1 else 0)
  }

  lemma {:induction false} FewPortsUsed(ts: seq<Translation>)
    ensures |set i | 0 <= i < |ts| :: ts[i].globalPort| <= |ts|
  {
    if ts != [] {
      var n := |ts| - 1;
      FewPortsUsed(ts[..n]);
      assert (set i | 0 <= i < |ts| :: ts[i].globalPort)
          == (set i | 0 <= i < |ts[..n]| :: ts[..n][i].globalPort) + {ts[n].globalPort};
    }
  }

  lemma {:induction false} FewStaticPorts(statics: seq<StaticRule>)
    ensures |set i | 0 <= i < |statics| && statics[i].PortRule? :: statics[i].globalPort| <= PortRules(statics)
  {
    if statics != [] {
      var n := |statics| - 1;
      FewStaticPorts(statics[..n]);
      var before := set i | 0 <= i < |statics[..n]| && statics[..n][i].PortRule? :: statics[..n][i].globalPort;
      var all := set i | 0 <= i < |statics| && statics[i].PortRule? :: statics[i].globalPort;
      if statics[n].PortRule? {
        assert all == before + {statics[n].globalPort};
      } else {
        assert all == before;
      }
    }
  }

  /** A set covering `from..from + n` has at least `n` members. */
  lemma {:induction false} Pigeonhole(s: set<nat>, from: nat, n: nat)
    requires forall p :: from <= p < from + n ==> p in s
    ensures |s| >= n
    decreases n
  {
    if n > 0 {
      Pigeonhole(s - {from}, from + 1, n - 1);
    }
  }

  /** Below the translation cap, the ports cannot run out unless static rules take 33618 of them. */
  lemma PortsNeverRunOut(c: Config, ts: seq<Translation>, cursor: nat)
    requires PORT_FIRST <= cursor <= PORT_LAST
    requires |ts| < MAX_TRANSLATIONS && PortRules(c.statics) <= 33617
    ensures SearchPort(c, ts, cursor, PORTS).port.Some?
  {
    PortSearchIsComplete(c, ts, cursor);
    if SearchPort(c, ts, cursor, PORTS).port.None? {
      FewPortsUsed(ts);
      FewStaticPorts(c.statics);
      var taken := TakenPorts(c, ts);
      forall p | PORT_FIRST <= p < PORT_FIRST + PORTS ensures p in taken {
        assert PortTaken(c, ts, p);
      }
      Pigeonhole(taken, PORT_FIRST, PORTS);
    }
  }

  /** The address search returns the least free address of the pool and fails only if none is free. */
  lemma {:induction false} FreeAddressIsLeast(c: Config, ts: seq<Translation>, overload: bool, from: Address,
                                              last: Address)
    ensures var r := FreeAddress(c, ts, overload, from, last);
            && (forall a :: from <= a <= last && (r.Some? ==> a < r.value) ==> AddressTaken(c, ts, overload, a))
            && (r.Some? ==> from <= r.value <= last && !AddressTaken(c, ts, overload, r.value))
    decreases last + 1 - from
  {
    if from <= last && AddressTaken(c, ts, overload, from) {
      FreeAddressIsLeast(c, ts, overload, from + 1, last);
    }
  }

  // -------------------------------------------------------------------------- invariant

  /** Configuration keeps the pool of a rule defined; only overloading works without one. */
  predicate Sound(c: Config) {
    c.dynamic.PoolRule? ==> c.dynamic.pool.Some? || c.dynamic.overload
  }

  predicate Overloaded(c: Config) {
    c.dynamic.PoolRule? ==> c.dynamic.overload
  }

  predicate Pooled(c: Config) {
    c.dynamic.PoolRule? && c.dynamic.pool.Some?
  }

  ghost predicate Entry(c: Config, e: Translation) {
    && (Overloaded(c) ==>
          forall i :: 0 <= i < |c.statics| && c.statics[i].PortRule? ==> c.statics[i].globalPort != e.globalPort)
    && (!Overloaded(c) ==> e.globalPort == e.localPort)
    && (Pooled(c) ==> forall i :: 0 <= i < |c.statics| ==> c.statics[i].global != e.global)
    && (c.dynamic.InterfaceRule? ==>
          c.dynamic.egress in c.addresses && e.global == c.addresses[c.dynamic.egress])
  }

  predicate SameLocal(a: Translation, b: Translation) {
    a.protocol == b.protocol && a.local == b.local && a.localPort == b.localPort
    && a.outside == b.outside && a.outsidePort == b.outsidePort
  }

  predicate SameGlobal(a: Translation, b: Translation) {
    a.protocol == b.protocol && a.global == b.global && a.globalPort == b.globalPort
    && a.outside == b.outside && a.outsidePort == b.outsidePort
  }

  ghost predicate Apart(c: Config, a: Translation, b: Translation) {
    && !SameLocal(a, b)
    && (if Overloaded(c) then a.globalPort != b.globalPort else a.global == b.global ==> a.local == b.local)
  }

  ghost predicate Table(c: Config, ts: seq<Translation>) {
    && (forall i :: 0 <= i < |ts| ==> Entry(c, ts[i]))
    && (forall i, j :: 0 <= i < j < |ts| ==> Apart(c, ts[i], ts[j]))
  }

  ghost predicate Invariant(c: Config, n: Nat) {
    PORT_FIRST <= n.nextPort <= PORT_LAST && |n.translations| <= MAX_TRANSLATIONS && Table(c, n.translations)
  }

  lemma {:induction false} RetainHas(ts: seq<Translation>, now: nat)
    ensures forall e :: e in Retain(ts, now) <==> e in ts && e.expiresAt > now
  {
    if ts != [] {
      var n := |ts| - 1;
      RetainHas(ts[..n], now);
      assert ts == ts[..n] + [ts[n]];
    }
  }

  lemma {:induction false} RetainKeeps(c: Config, ts: seq<Translation>, now: nat)
    requires Table(c, ts)
    ensures Table(c, Retain(ts, now))
  {
    if ts != [] {
      var n := |ts| - 1;
      var front := ts[..n];
      RetainKeeps(c, front, now);
      RetainHas(front, now);
      var kept := Retain(front, now);
      forall i | 0 <= i < |kept| ensures Apart(c, kept[i], ts[n]) {
        assert kept[i] in front;
        var j :| 0 <= j < n && front[j] == kept[i];
        assert Apart(c, ts[j], ts[n]);
      }
    }
  }

  lemma AppendKeeps(c: Config, ts: seq<Translation>, e: Translation)
    requires Table(c, ts) && Entry(c, e)
    requires forall i :: 0 <= i < |ts| ==> Apart(c, ts[i], e)
    ensures Table(c, ts + [e])
  {
  }

  lemma RefreshKeeps(c: Config, ts: seq<Translation>, i: nat, until: nat)
    requires Table(c, ts) && i < |ts|
    ensures Table(c, ts[i := ts[i].(expiresAt := until)])
  {
  }

  lemma ExpireKeeps(c: Config, n: Nat, now: nat)
    requires Invariant(c, n)
    ensures Invariant(c, Expire(n, now))
  {
    RetainKeeps(c, n.translations, now);
  }

  lemma UseOutboundKeeps(c: Config, n: Nat, p: Packet, i: nat, now: nat)
    requires Invariant(c, n) && i < |n.translations|
    ensures Invariant(c, UseOutbound(n, p, i, now).table)
  {
  }

  /** What allocation chose is new: a free port, or an address only this local host holds. */
  lemma FreshIsApart(c: Config, ts: seq<Translation>, rule: Selected, egress: Interface, e: Translation, cursor: nat)
    requires Sound(c) && Table(c, ts) && Select(c, egress) == Some(rule) && PORT_FIRST <= cursor <= PORT_LAST
    requires GlobalAddress(c, ts, rule, egress, e.local) == Some(e.global)
    requires if rule.overload then SearchPort(c, ts, cursor, PORTS).port == Some(e.globalPort)
             else e.globalPort == e.localPort
    requires forall i :: 0 <= i < |ts| ==> !SameLocal(ts[i], e)
    ensures Entry(c, e)
    ensures forall i :: 0 <= i < |ts| ==> Apart(c, ts[i], e)
  {
    if rule.overload {
      PortSearchIsComplete(c, ts, cursor);
    }
    if rule.pool.Some? {
      var pool := rule.pool.value;
      FreeAddressIsLeast(c, ts, rule.overload, pool.first, pool.last);
      match First(ts, HeldBy(e.local, pool))
      case Some(k) =>
        assert Entry(c, ts[k]);
        if !rule.overload {
          forall i | 0 <= i < |ts| ensures Apart(c, ts[i], e) {
            assert i < k ==> Apart(c, ts[i], ts[k]);
            assert k < i ==> Apart(c, ts[k], ts[i]);
          }
        }
      case None =>
        assert !AddressTaken(c, ts, rule.overload, e.global);
    }
  }

  lemma AllocateKeeps(c: Config, n: Nat, rule: Selected, egress: Interface, p: Packet, t: Transport, now: nat)
    requires Sound(c) && Invariant(c, n) && Select(c, egress) == Some(rule)
    requires First(n.translations, OutboundMatch(p, t)).None?
    ensures Invariant(c, Allocate(c, n, rule, egress, p, t, now).table)
  {
    SearchVisits(c, n.translations, n.nextPort, PORTS);
    if |n.translations| < MAX_TRANSLATIONS {
      var global := GlobalAddress(c, n.translations, rule, egress, p.source);
      var found := if rule.overload then SearchPort(c, n.translations, n.nextPort, PORTS)
        else Found(Some(t.port), n.nextPort);
      if global.Some? && found.port.Some? {
        var e := Translation(t.protocol, p.source, t.port, global.value, found.port.value, p.destination, t.peer, now);
        forall i | 0 <= i < |n.translations| ensures !SameLocal(n.translations[i], e) {
          assert !OutboundMatch(p, t)(n.translations[i]);
        }
        FreshIsApart(c, n.translations, rule, egress, e, n.nextPort);
        AppendKeeps(c, n.translations, e);
        var grown := n.(nextPort := found.cursor, translations := n.translations + [e],
                        allocations := SatAdd64(n.allocations, 1));
        UseOutboundKeeps(c, grown, p, |n.translations|, now);
      }
    }
  }

  lemma OutboundKeeps(c: Config, n: Nat, ingress: Interface, egress: Interface, p: Packet, now: nat)
    requires Sound(c) && Invariant(c, n)
    ensures Invariant(c, Outbound(c, n, ingress, egress, p, now).table)
  {
    var rule := Select(c, egress);
    var t := OutboundTransport(p);
    ExpireKeeps(c, n, now);
    if rule.Some? && t.Some? {
      var live := Expire(n, now);
      match First(live.translations, OutboundMatch(p, t.value))
      case Some(i) => UseOutboundKeeps(c, live, p, i, now);
      case None => AllocateKeeps(c, live, rule.value, egress, p, t.value, now);
    }
  }

  lemma InboundKeeps(c: Config, n: Nat, ingress: Interface, p: Packet, now: nat)
    requires Invariant(c, n)
    ensures Invariant(c, Inbound(c, n, ingress, p, now).table)
  {
    ExpireKeeps(c, n, now);
    var t := InboundTransport(p);
    if t.Some? {
      var live := Expire(n, now);
      match First(live.translations, InboundMatch(p, t.value))
      case Some(i) => RefreshKeeps(c, live.translations, i, SatAdd64(now, TIMEOUT_US));
      case None =>
    }
  }

  // ------------------------------------------------------------------------- whole runs

  datatype Action =
    | Out(ingress: Interface, egress: Interface, packet: Packet, now: nat)
    | In(ingress: Interface, packet: Packet, now: nat)
    | Sweep(now: nat)
    | Clear

  function Step(c: Config, n: Nat, a: Action): Nat {
    match a
    case Out(ingress, egress, packet, now) => Outbound(c, n, ingress, egress, packet, now).table
    case In(ingress, packet, now) => Inbound(c, n, ingress, packet, now).table
    case Sweep(now) => Expire(n, now)
    case Clear => n.(translations := [])
  }

  function Run(c: Config, n: Nat, actions: seq<Action>): Nat
    decreases |actions|
  {
    if actions == [] then n else Run(c, Step(c, n, actions[0]), actions[1..])
  }

  lemma StepKeeps(c: Config, n: Nat, a: Action)
    requires Sound(c) && Invariant(c, n)
    ensures Invariant(c, Step(c, n, a))
  {
    match a
    case Out(ingress, egress, packet, now) => OutboundKeeps(c, n, ingress, egress, packet, now);
    case In(ingress, packet, now) => InboundKeeps(c, n, ingress, packet, now);
    case Sweep(now) => ExpireKeeps(c, n, now);
    case Clear =>
  }

  lemma {:induction false} RunKeeps(c: Config, n: Nat, actions: seq<Action>)
    requires Sound(c) && Invariant(c, n)
    ensures Invariant(c, Run(c, n, actions))
    decreases |actions|
  {
    if actions != [] {
      StepKeeps(c, n, actions[0]);
      RunKeeps(c, Step(c, n, actions[0]), actions[1..]);
    }
  }

  /** Over every run, no two translations share a local flow or a global flow. */
  lemma TranslationsStayInjective(c: Config, actions: seq<Action>, i: nat, j: nat)
    requires Sound(c)
    requires i < j < |Run(c, EMPTY, actions).translations|
    ensures var ts := Run(c, EMPTY, actions).translations;
            !SameGlobal(ts[i], ts[j]) && !SameLocal(ts[i], ts[j])
  {
    RunKeeps(c, EMPTY, actions);
    var ts := Run(c, EMPTY, actions).translations;
    assert Apart(c, ts[i], ts[j]) && Entry(c, ts[i]) && Entry(c, ts[j]);
  }

  /** Without a pool and without overloading, two hosts can share one global flow. */
  lemma UnsoundRuleCollides()
    ensures var c := Config(map[1 := Inside, 2 := Outside], map[2 := 9], [], PoolRule({10, 11}, None, false));
            var n := Run(c, EMPTY, [Out(1, 2, Packet(10, 20, Echo(7)), 0), Out(1, 2, Packet(11, 20, Echo(7)), 0)]);
            |n.translations| == 2 && SameGlobal(n.translations[0], n.translations[1])
  {
    var c := Config(map[1 := Inside, 2 := Outside], map[2 := 9], [], PoolRule({10, 11}, None, false));
    var p, q := Packet(10, 20, Echo(7)), Packet(11, 20, Echo(7));
    var n1 := Outbound(c, EMPTY, 1, 2, p, 0).table;
    assert Expire(EMPTY, 0) == EMPTY;
    assert n1.translations == [Translation(Icmp, 10, 7, 9, 7, 20, 0, TIMEOUT_US)];
    assert Retain(n1.translations, 0) == n1.translations by {
      RetainHas(n1.translations[..0], 0);
    }
    var n2 := Outbound(c, n1, 1, 2, q, 0).table;
    assert First(n1.translations, OutboundMatch(q, Transport(Icmp, 7, 0))).None?;
    assert n2.translations == n1.translations + [Translation(Icmp, 11, 7, 9, 7, 20, 0, TIMEOUT_US)];
    var a, b := Out(1, 2, p, 0), Out(1, 2, q, 0);
    assert [a, b][1..] == [b] && [b][1..] == [];
    assert Run(c, n1, [b]) == Run(c, n2, []);
  }

  // ------------------------------------------------------------------ replies come back

  /** A live translation for the flow of `e`, good until at least `deadline`. */
  ghost predicate Lives(n: Nat, e: Translation, deadline: nat) {
    exists x :: x in n.translations && x.(expiresAt := e.expiresAt) == e && x.expiresAt >= deadline
  }

  lemma ExpireSpares(n: Nat, e: Translation, deadline: nat, now: nat)
    requires Lives(n, e, deadline) && now < deadline
    ensures Lives(Expire(n, now), e, deadline)
  {
    var x :| x in n.translations && x.(expiresAt := e.expiresAt) == e && x.expiresAt >= deadline;
    RetainHas(n.translations, now);
    assert x in Expire(n, now).translations;
  }

  lemma RefreshSpares(ts: seq<Translation>, e: Translation, deadline: nat, i: nat, until: nat)
    requires i < |ts| && until >= deadline
    requires exists x :: x in ts && x.(expiresAt := e.expiresAt) == e && x.expiresAt >= deadline
    ensures exists x ::
              x in ts[i := ts[i].(expiresAt := until)] && x.(expiresAt := e.expiresAt) == e && x.expiresAt >= deadline
  {
    var x :| x in ts && x.(expiresAt := e.expiresAt) == e && x.expiresAt >= deadline;
    var k :| 0 <= k < |ts| && ts[k] == x;
    var r := ts[i := ts[i].(expiresAt := until)];
    assert r[k] in r;
  }

  lemma OutboundSpares(c: Config, n: Nat, e: Translation, ingress: Interface, egress: Interface, p: Packet, start: nat,
                       now: nat)
    requires Lives(n, e, SatAdd64(start, TIMEOUT_US)) && start <= now < SatAdd64(start, TIMEOUT_US)
    ensures Lives(Outbound(c, n, ingress, egress, p, now).table, e, SatAdd64(start, TIMEOUT_US))
  {
    var deadline := SatAdd64(start, TIMEOUT_US);
    ExpireSpares(n, e, deadline, now);
    var rule, t := Select(c, egress), OutboundTransport(p);
    if rule.Some? && t.Some? {
      DynamicallySpares(c, Expire(n, now), e, rule.value, egress, p, t.value, start, now);
    }
  }

  lemma DynamicallySpares(c: Config, n: Nat, e: Translation, rule: Selected, egress: Interface, p: Packet, t: Transport,
                          start: nat, now: nat)
    requires Lives(n, e, SatAdd64(start, TIMEOUT_US)) && start <= now
    ensures Lives(Dynamically(c, n, rule, egress, p, t, now).table, e, SatAdd64(start, TIMEOUT_US))
  {
    var deadline, until := SatAdd64(start, TIMEOUT_US), SatAdd64(now, TIMEOUT_US);
    match First(n.translations, OutboundMatch(p, t))
    case Some(i) => RefreshSpares(n.translations, e, deadline, i, until);
    case None =>
      AllocateSpares(c, n, e, rule, egress, p, t, deadline, now);
  }

  lemma AllocateSpares(c: Config, n: Nat, e: Translation, rule: Selected, egress: Interface, p: Packet, t: Transport,
                       deadline: nat, now: nat)
    requires Lives(n, e, deadline) && deadline <= SatAdd64(now, TIMEOUT_US)
    ensures Lives(Allocate(c, n, rule, egress, p, t, now).table, e, deadline)
  {
    var global := GlobalAddress(c, n.translations, rule, egress, p.source);
    var found := if rule.overload then SearchPort(c, n.translations, n.nextPort, PORTS)
      else Found(Some(t.port), n.nextPort);
    if |n.translations| < MAX_TRANSLATIONS && global.Some? && found.port.Some? {
      var entry := Translation(t.protocol, p.source, t.port, global.value, found.port.value, p.destination, t.peer,
                               now);
      var x :| x in n.translations && x.(expiresAt := e.expiresAt) == e && x.expiresAt >= deadline;
      var grown := n.translations + [entry];
      assert x in grown;
      RefreshSpares(grown, e, deadline, |n.translations|, SatAdd64(now, TIMEOUT_US));
    }
  }

  lemma InboundSpares(c: Config, n: Nat, e: Translation, ingress: Interface, p: Packet, start: nat, now: nat)
    requires Lives(n, e, SatAdd64(start, TIMEOUT_US)) && start <= now < SatAdd64(start, TIMEOUT_US)
    ensures Lives(Inbound(c, n, ingress, p, now).table, e, SatAdd64(start, TIMEOUT_US))
  {
    var deadline := SatAdd64(start, TIMEOUT_US);
    ExpireSpares(n, e, deadline, now);
    var t := InboundTransport(p);
    if t.Some? {
      var live := Expire(n, now);
      match First(live.translations, InboundMatch(p, t.value))
      case Some(i) => RefreshSpares(live.translations, e, deadline, i, SatAdd64(now, TIMEOUT_US));
      case None =>
    }
  }

  /** Any traffic within the lifetime of a translation, short of clearing the table. */
  ghost predicate Within(actions: seq<Action>, start: nat) {
    forall i :: 0 <= i < |actions| ==> !actions[i].Clear? && start <= actions[i].now < SatAdd64(start, TIMEOUT_US)
  }

  lemma {:induction false} RunSpares(c: Config, n: Nat, e: Translation, actions: seq<Action>, start: nat)
    requires Lives(n, e, SatAdd64(start, TIMEOUT_US)) && Within(actions, start)
    ensures Lives(Run(c, n, actions), e, SatAdd64(start, TIMEOUT_US))
    decreases |actions|
  {
    if actions != [] {
      match actions[0] {
        case Out(ingress, egress, p, now) => OutboundSpares(c, n, e, ingress, egress, p, start, now);
        case In(ingress, p, now) => InboundSpares(c, n, e, ingress, p, start, now);
        case Sweep(now) => ExpireSpares(n, e, SatAdd64(start, TIMEOUT_US), now);
      }
      RunSpares(c, Step(c, n, actions[0]), e, actions[1..], start);
    }
  }

  /** A static address rule takes over everything sent to `a`. */
  ghost predicate Claimed(c: Config, a: Address) {
    exists i :: 0 <= i < |c.statics| && c.statics[i].AddressRule? && c.statics[i].global == a
  }

  /** `e` is the translation that turned `p` into `q`. */
  ghost predicate Through(e: Translation, p: Packet, q: Packet) {
    && OutboundTransport(p) == Some(Transport(e.protocol, e.localPort, e.outsidePort))
    && e.local == p.source && e.outside == p.destination
    && Rewrite(p, e.global, Some(e.globalPort), true) == Some(q)
  }

  lemma UseOutboundGoesThrough(n: Nat, p: Packet, i: nat, now: nat, q: Packet) returns (e: Translation)
    requires i < |n.translations| && UseOutbound(n, p, i, now).outcome == Translated(q)
    requires OutboundTransport(p).Some? && OutboundMatch(p, OutboundTransport(p).value)(n.translations[i])
    ensures Through(e, p, q) && Lives(UseOutbound(n, p, i, now).table, e, SatAdd64(now, TIMEOUT_US))
    ensures e.global == n.translations[i].global
  {
    e := n.translations[i].(expiresAt := SatAdd64(now, TIMEOUT_US));
    assert UseOutbound(n, p, i, now).table.translations[i] == e;
  }

  /** The live translation of the flow of `p`, if it has one. */
  function FlowOf(n: Nat, p: Packet, now: nat): Option<Translation> {
    var live, t := Retain(n.translations, now), OutboundTransport(p);
    if t.None? then None
    else
      match First(live, OutboundMatch(p, t.value))
      case Some(i) => Some(live[i])
      case None => None
  }

  /**
   Known before `p` leaves by `egress` at `now`: whether a static address rule owns the address
   it will be given. Pools avoid such addresses; otherwise it is the address its flow already
   has, or that of the interface.
   */
  ghost predicate WillBeClaimed(c: Config, n: Nat, egress: Interface, p: Packet, now: nat) {
    && !Pooled(c)
    && match FlowOf(n, p, now)
       case Some(e) => Claimed(c, e.global)
       case None => egress in c.addresses && Claimed(c, c.addresses[egress])
  }

  lemma OutboundGoesThrough(c: Config, n: Nat, ingress: Interface, egress: Interface, p: Packet, now: nat, q: Packet)
    returns (e: Translation)
    requires Sound(c) && Invariant(c, n)
    requires TranslateStatic(c.statics, p, true).None?
    requires Outbound(c, n, ingress, egress, p, now).outcome == Translated(q)
    ensures Through(e, p, q) && Lives(Outbound(c, n, ingress, egress, p, now).table, e, SatAdd64(now, TIMEOUT_US))
    ensures !Pooled(c) ==> match FlowOf(n, p, now)
                           case Some(x) => e.global == x.global
                           case None => egress in c.addresses && e.global == c.addresses[egress]
  {
    var t := OutboundTransport(p).value;
    var live := Expire(n, now);
    match First(live.translations, OutboundMatch(p, t))
    case Some(i) => e := UseOutboundGoesThrough(live, p, i, now, q);
    case None =>
      var rule := Select(c, egress).value;
      var found := if rule.overload then SearchPort(c, live.translations, live.nextPort, PORTS)
                   else Found(Some(t.port), live.nextPort);
      var entry := Translation(t.protocol, p.source, t.port,
                               GlobalAddress(c, live.translations, rule, egress, p.source).value,
                               found.port.value, p.destination, t.peer, now);
      var grown := live.(nextPort := found.cursor, translations := live.translations + [entry],
                         allocations := SatAdd64(live.allocations, 1));
      e := UseOutboundGoesThrough(grown, p, |live.translations|, now, q);
  }

  /** Only an address rule can intercept a reply to a dynamic translation. */
  lemma StaticSeesReply(c: Config, e: Translation, p: Packet, q: Packet)
    requires Sound(c) && Entry(c, e) && Through(e, p, q)
    ensures forall i :: 0 <= i < |c.statics| ==>
              (StaticMatch(Reply(q), false)(c.statics[i])
               <==> c.statics[i].AddressRule? && c.statics[i].global == e.global)
  {
  }

  /** A host named by an address rule is always translated statically. */
  lemma NamedHostsAreStatic(c: Config, p: Packet, k: nat)
    requires k < |c.statics| && c.statics[k].AddressRule? && c.statics[k].local == p.source
             && OutboundTransport(p).Some?
    ensures TranslateStatic(c.statics, p, true).Some?
  {
  }

  lemma LiveReplyFound(c: Config, n: Nat, e: Translation, p: Packet, q: Packet, now: nat)
    requires Sound(c) && Table(c, n.translations) && Through(e, p, q) && Lives(n, e, now + 1)
    ensures var t := InboundTransport(Reply(q));
            t.Some? && UseInbound(n, Reply(q), First(n.translations, InboundMatch(Reply(q), t.value)), now).outcome
                       == Translated(Reply(p))
  {
  }

  /**
   The reply to any dynamically translated packet, within sixty seconds and across any other
   traffic, is turned into the reply to the original packet, exactly unless a static address
   rule owns the address the packet is given.
   */
  lemma RepliesComeBack(c: Config, n: Nat, ingress: Interface, egress: Interface, p: Packet, start: nat, q: Packet,
                        actions: seq<Action>, back: Interface, now: nat)
    requires Sound(c) && Invariant(c, n)
    requires TranslateStatic(c.statics, p, true).None?
    requires Outbound(c, n, ingress, egress, p, start).outcome == Translated(q)
    requires Within(actions, start) && now < SatAdd64(start, TIMEOUT_US)
    requires back in c.roles && c.roles[back].Outside?
    ensures var later := Run(c, Outbound(c, n, ingress, egress, p, start).table, actions);
            Inbound(c, later, back, Reply(q), now).outcome == Translated(Reply(p)) <==>
            !WillBeClaimed(c, n, egress, p, start)
  {
    var sent := Outbound(c, n, ingress, egress, p, start).table;
    var later := Run(c, sent, actions);
    OutboundKeeps(c, n, ingress, egress, p, start);
    var e := OutboundGoesThrough(c, n, ingress, egress, p, start, q);
    RunSpares(c, sent, e, actions, start);
    RunKeeps(c, sent, actions);
    EntryOf(c, later, e, SatAdd64(start, TIMEOUT_US));
    LivesLonger(later, e, SatAdd64(start, TIMEOUT_US), now + 1);
    ReplyReturns(c, later, e, p, q, back, now);
    assert Claimed(c, e.global) <==> WillBeClaimed(c, n, egress, p, start);
  }

  /** Behind an interface address, replies come back exactly unless an address rule owns that address. */
  lemma InterfaceClaims(c: Config, n: Nat, egress: Interface, p: Packet, now: nat)
    requires Invariant(c, n) && c.dynamic.InterfaceRule? && c.dynamic.egress == egress && egress in c.addresses
    ensures WillBeClaimed(c, n, egress, p, now) <==> Claimed(c, c.addresses[egress])
  {
    RetainKeeps(c, n.translations, now);
  }

  /** While a translation lives, the reply through it is delivered, unless a rule claims its address. */
  lemma ReplyReturns(c: Config, n: Nat, e: Translation, p: Packet, q: Packet, back: Interface, now: nat)
    requires Sound(c) && Invariant(c, n) && TranslateStatic(c.statics, p, true).None?
    requires Entry(c, e) && Through(e, p, q) && Lives(n, e, now + 1)
    requires back in c.roles && c.roles[back].Outside?
    ensures Inbound(c, n, back, Reply(q), now).outcome == Translated(Reply(p)) <==> !Claimed(c, e.global)
  {
    StaticSeesReply(c, e, p, q);
    var index := First(c.statics, StaticMatch(Reply(q), false));
    if Claimed(c, e.global) {
      var k :| 0 <= k < |c.statics| && c.statics[k].AddressRule? && c.statics[k].global == e.global;
      assert StaticMatch(Reply(q), false)(c.statics[k]);
      var rule := c.statics[index.value];
      assert rule.AddressRule?;
      if rule.local == p.source {
        NamedHostsAreStatic(c, p, index.value);
      }
    } else {
      assert index.None?;
      ExpireKeeps(c, n, now);
      ExpireSpares(n, e, now + 1, now);
      LiveReplyFound(c, Expire(n, now), e, p, q, now);
    }
  }

  /** A rule that gives host 11 the address of the outside interface takes over the replies to host 10. */
  lemma AddressRuleTakesReplies()
    ensures var c := Config(map[1 := Inside, 2 := Outside], map[2 := 9], [AddressRule(11, 9)], InterfaceRule({10}, 2));
            var p := Packet(10, 20, Echo(7));
            var sent := Outbound(c, EMPTY, 1, 2, p, 0);
            && Sound(c) && sent.outcome.Translated?
            && Inbound(c, sent.table, 2, Reply(sent.outcome.packet), 1).outcome.Translated?
            && Reply(p).destination == 10
            && Inbound(c, sent.table, 2, Reply(sent.outcome.packet), 1).outcome.packet.destination == 11
  {
    var rules := [AddressRule(11, 9)];
    var c := Config(map[1 := Inside, 2 := Outside], map[2 := 9], rules, InterfaceRule({10}, 2));
    var p := Packet(10, 20, Echo(7));
    assert Expire(EMPTY, 0) == EMPTY;
    assert First(rules, StaticMatch(p, true)).None?;
    assert !PortTaken(c, [], PORT_FIRST);
    var q := Packet(9, 20, Echo(PORT_FIRST));
    assert Outbound(c, EMPTY, 1, 2, p, 0).outcome == Translated(q);
    assert StaticMatch(Reply(q), false)(rules[0]);
    assert First(rules, StaticMatch(Reply(q), false)) == Some(0);
  }

  lemma LivesLonger(n: Nat, e: Translation, deadline: nat, sooner: nat)
    requires Lives(n, e, deadline) && sooner <= deadline
    ensures Lives(n, e, sooner)
  {
  }

  lemma EntryOf(c: Config, n: Nat, e: Translation, deadline: nat)
    requires Invariant(c, n) && Lives(n, e, deadline)
    ensures Entry(c, e)
  {
  }

  /** A pool never hands out a claimed address, so its replies always come back. */
  lemma PoolsAreNeverClaimed(c: Config, n: Nat, i: nat)
    requires Invariant(c, n) && Pooled(c) && i < |n.translations|
    ensures !Claimed(c, n.translations[i].global)
  {
  }

  // ----------------------------------------------------------------- static round trips

  /** What configuration checks before it accepts another static rule. */
  predicate Compatible(a: StaticRule, b: StaticRule) {
    if a.PortRule? && b.PortRule? then
      a.tcp == b.tcp ==>
        (a.global != b.global || a.globalPort != b.globalPort) && (a.local != b.local || a.localPort != b.localPort)
    else
      a.global != b.global && a.local != b.local
  }

  ghost predicate AllCompatible(statics: seq<StaticRule>) {
    forall i, j :: 0 <= i < |statics| && 0 <= j < |statics| && i != j ==> Compatible(statics[i], statics[j])
  }

  /** Static translation in one direction undoes the other. */
  lemma StaticRepliesComeBack(statics: seq<StaticRule>, p: Packet, q: Packet)
    requires AllCompatible(statics)
    requires TranslateStatic(statics, p, true) == Some(q)
    ensures TranslateStatic(statics, Reply(q), false) == Some(Reply(p))
  {
  }
}
