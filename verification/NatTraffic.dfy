/**
 Which packets are translated, into what, and what the table then holds: every verdict of the
 two directions stated from the packet, the configuration and the live translations.
 */
module NatTraffic {
  import opened Prelude
  import opened NatSpec
  import opened NatRuns

  // ----------------------------------------------------------------------------- packets

  /** A payload whose flow can be told: a UDP or TCP datagram, or an ICMP echo. */
  predicate HasFlow(p: Packet) {
    p.payload.Datagram? || p.payload.Echo?
  }

  /** The packet belongs to the translation, seen from inside. */
  predicate Outgoing(e: Translation, p: Packet) {
    && e.local == p.source && e.outside == p.destination
    && match p.payload
       case Datagram(tcp, s, d) => e.protocol == (if tcp then Tcp else Udp) && e.localPort == s && e.outsidePort == d
       case Echo(id) => e.protocol == Icmp && e.localPort == id && e.outsidePort == 0
       case _ => false
  }

  /** The packet belongs to the translation, seen from outside. */
  predicate Incoming(e: Translation, p: Packet) {
    && e.outside == p.source && e.global == p.destination
    && match p.payload
       case Datagram(tcp, s, d) => e.protocol == (if tcp then Tcp else Udp) && e.globalPort == d && e.outsidePort == s
       case Echo(id) => e.protocol == Icmp && e.globalPort == id && e.outsidePort == 0
       case _ => false
  }

  /** The packet as it leaves through the translation. */
  function Leaving(e: Translation, p: Packet): Packet {
    Packet(e.global, p.destination,
           match p.payload
           case Datagram(tcp, _, d) => Datagram(tcp, e.globalPort, d)
           case Echo(_) => Echo(e.globalPort)
           case other => other)
  }

  /** The packet as it enters through the translation. */
  function Entering(e: Translation, p: Packet): Packet {
    Packet(p.source, e.local,
           match p.payload
           case Datagram(tcp, s, _) => Datagram(tcp, s, e.localPort)
           case Echo(_) => Echo(e.localPort)
           case other => other)
  }

  // ------------------------------------------------------------------------- static rules

  /** The rule is for this packet on its way out. */
  predicate RuleOut(rule: StaticRule, p: Packet) {
    rule.local == p.source &&
    (rule.PortRule? ==>
       p.payload.Datagram? && p.payload.tcp == rule.tcp && p.payload.sourcePort == rule.localPort)
  }

  /** The rule is for this packet on its way in. */
  predicate RuleIn(rule: StaticRule, p: Packet) {
    rule.global == p.destination &&
    (rule.PortRule? ==>
       p.payload.Datagram? && p.payload.tcp == rule.tcp && p.payload.destinationPort == rule.globalPort)
  }

  function RuledOut(rule: StaticRule, p: Packet): Packet {
    Packet(rule.global, p.destination,
           if rule.PortRule? && p.payload.Datagram?
           then Datagram(p.payload.tcp, rule.globalPort, p.payload.destinationPort) else p.payload)
  }

  function RuledIn(rule: StaticRule, p: Packet): Packet {
    Packet(p.source, rule.local,
           if rule.PortRule? && p.payload.Datagram?
           then Datagram(p.payload.tcp, p.payload.sourcePort, rule.localPort) else p.payload)
  }

  /** The first rule for the packet rewrites it, unless its payload does not decode. */
  lemma StaticOut(statics: seq<StaticRule>, p: Packet, q: Packet)
    ensures TranslateStatic(statics, p, true) == Some(q) <==>
            p.payload != Broken &&
            exists i :: 0 <= i < |statics| && RuleOut(statics[i], p) && q == RuledOut(statics[i], p)
                        && forall j :: 0 <= j < i ==> !RuleOut(statics[j], p)
  {
    forall rule: StaticRule ensures StaticMatch(p, true)(rule) <==> RuleOut(rule, p) {
    }
    var found := First(statics, StaticMatch(p, true));
    if found.Some? {
      assert RuleOut(statics[found.value], p);
    }
  }

  lemma StaticIn(statics: seq<StaticRule>, p: Packet, q: Packet)
    ensures TranslateStatic(statics, p, false) == Some(q) <==>
            p.payload != Broken &&
            exists i :: 0 <= i < |statics| && RuleIn(statics[i], p) && q == RuledIn(statics[i], p)
                        && forall j :: 0 <= j < i ==> !RuleIn(statics[j], p)
  {
    forall rule: StaticRule ensures StaticMatch(p, false)(rule) <==> RuleIn(rule, p) {
    }
    var found := First(statics, StaticMatch(p, false));
    if found.Some? {
      assert RuleIn(statics[found.value], p);
    }
  }

  // ------------------------------------------------------------------------------- expiry

  /** A translation alone is swept exactly when its deadline has come, and a table is swept part by part. */
  lemma {:induction false} RetainExactly(a: seq<Translation>, b: seq<Translation>, e: Translation, now: nat)
    ensures Retain([e], now) == if now < e.expiresAt then [e] else []
    ensures Retain(a + b, now) == Retain(a, now) + Retain(b, now)
    decreases |b|
  {
    assert [e][..0] == [];
    if b == [] {
      assert a + b == a;
    } else {
      var n := |b| - 1;
      assert (a + b)[..|a| + n] == a + b[..n];
      RetainExactly(a, b[..n], e, now);
    }
  }

  // ------------------------------------------------------------------------------ verdicts

  predicate Crosses(c: Config, ingress: Interface, egress: Interface) {
    ingress in c.roles && c.roles[ingress] == Inside && egress in c.roles && c.roles[egress] == Outside
  }

  /** The dynamic rule is for packets of this host that leave by this interface. */
  predicate Permits(c: Config, egress: Interface, host: Address) {
    match c.dynamic
    case NoRule => false
    case PoolRule(permitted, _, _) => host in permitted
    case InterfaceRule(permitted, outside) => outside == egress && host in permitted
  }

  ghost predicate Flowing(n: Nat, p: Packet, now: nat) {
    exists e :: e in n.translations && now < e.expiresAt && Outgoing(e, p)
  }

  /** No static rule owns the address, and unless the rule overloads, no live translation uses it. */
  ghost predicate Unowned(c: Config, live: seq<Translation>, overload: bool, a: Address) {
    && (forall i :: 0 <= i < |c.statics| ==> c.statics[i].global != a)
    && (overload || forall e :: e in live ==> e.global != a)
  }

  /** A new flow of the host can be given an address. */
  ghost predicate AddressThere(c: Config, live: seq<Translation>, egress: Interface, host: Address) {
    if Pooled(c) then
      var pool := c.dynamic.pool.value;
      || (exists e :: e in live && e.local == host && pool.first <= e.global <= pool.last)
      || (exists a :: pool.first <= a <= pool.last && Unowned(c, live, c.dynamic.overload, a))
    else egress in c.addresses
  }

  ghost predicate PortThere(c: Config, live: seq<Translation>) {
    Overloaded(c) ==> exists port :: 10_000 <= port <= 60_000 && Unused(c, live, port)
  }

  ghost predicate Unused(c: Config, live: seq<Translation>, port: nat) {
    && (forall e :: e in live ==> e.globalPort != port)
    && (forall i :: 0 <= i < |c.statics| && c.statics[i].PortRule? ==> c.statics[i].globalPort != port)
  }

  /** There is room in the table, an address and a port for a new flow. */
  ghost predicate Grants(c: Config, n: Nat, egress: Interface, host: Address, now: nat) {
    var live := Retain(n.translations, now);
    |live| < 16_384 && AddressThere(c, live, egress, host) && PortThere(c, live)
  }

  lemma AddressGranted(c: Config, live: seq<Translation>, egress: Interface, host: Address)
    requires Select(c, egress).Some?
    ensures GlobalAddress(c, live, Select(c, egress).value, egress, host).Some? <==> AddressThere(c, live, egress, host)
  {
    if Pooled(c) {
      var pool, overload := c.dynamic.pool.value, c.dynamic.overload;
      FreeAddressIsLeast(c, live, overload, pool.first, pool.last);
      forall a ensures AddressTaken(c, live, overload, a) <==> !Unowned(c, live, overload, a) {
      }
      var held := First(live, HeldBy(host, pool));
      if held.Some? {
        assert live[held.value] in live;
      }
    }
  }

  lemma PortGranted(c: Config, live: seq<Translation>, cursor: nat)
    requires 10_000 <= cursor <= 60_000
    ensures SearchPort(c, live, cursor, PORTS).port.Some? <==>
            exists port :: 10_000 <= port <= 60_000 && Unused(c, live, port)
  {
    PortSearchIsComplete(c, live, cursor);
    forall port ensures PortTaken(c, live, port) <==> !Unused(c, live, port) {
      if PortTaken(c, live, port) {
      } else {
      }
    }
  }

  lemma FlowFound(n: Nat, p: Packet, now: nat)
    requires OutboundTransport(p).Some?
    ensures var found := First(Expire(n, now).translations, OutboundMatch(p, OutboundTransport(p).value));
            found.Some? <==> Flowing(n, p, now)
  {
    var live := Expire(n, now).translations;
    RetainHas(n.translations, now);
    forall e: Translation ensures OutboundMatch(p, OutboundTransport(p).value)(e) <==> Outgoing(e, p) {
    }
    var found := First(live, OutboundMatch(p, OutboundTransport(p).value));
    if found.Some? {
      assert live[found.value] in live;
    }
  }

  /**
   A packet that no static rule translates goes out translated exactly when the rule permits its
   host and its flow is live or can be granted; a permitted packet is otherwise dropped, and any
   other passes unchanged.
   */
  lemma OutboundDecides(c: Config, n: Nat, ingress: Interface, egress: Interface, p: Packet, now: nat)
    requires 10_000 <= n.nextPort <= 60_000
    ensures var r, ruled := Outbound(c, n, ingress, egress, p, now), TranslateStatic(c.statics, p, true);
            if !Crosses(c, ingress, egress) then r == Result(n, Unchanged)
            else if ruled.Some? then r.outcome == Translated(ruled.value)
            else
              && (r.outcome.Unchanged? <==> !Permits(c, egress, p.source))
              && (r.outcome.Translated? <==> Permits(c, egress, p.source) && HasFlow(p)
                                              && (Flowing(n, p, now) || Grants(c, n, egress, p.source, now)))
  {
    var rule, t := Select(c, egress), OutboundTransport(p);
    if rule.Some? && t.Some? {
      var live := Expire(n, now);
      FlowFound(n, p, now);
      AddressGranted(c, live.translations, egress, p.source);
      PortGranted(c, live.translations, n.nextPort);
    }
  }

  // ----------------------------------------------------------------------- what goes out

  /** The table is as swept, but for the translation used, which is good for another sixty seconds. */
  ghost predicate UsedOne(swept: seq<Translation>, ts: seq<Translation>, i: nat, now: nat) {
    && i < |ts| && ts[i].expiresAt == SatAdd64(now, 60_000_000)
    && |swept| <= |ts| && (|ts| == |swept| || (|ts| == |swept| + 1 && i == |swept|))
    && (forall j :: 0 <= j < |ts| && j != i ==> j < |swept| && ts[j] == swept[j])
    && (i < |swept| ==> ts[i] == swept[i].(expiresAt := ts[i].expiresAt))
  }

  /** How the counters move: one hit or one drop, and one allocation for a flow that had no translation. */
  ghost predicate Counted(n: Nat, r: Result, grown: bool, expired: nat) {
    && r.table.hits == (if r.outcome.Translated? then SatAdd64(n.hits, 1) else n.hits)
    && r.table.drops == (if r.outcome.Drop? then SatAdd64(n.drops, 1) else n.drops)
    && r.table.misses == n.misses
    && r.table.allocations == (if grown then SatAdd64(n.allocations, 1) else n.allocations)
    && r.table.expired == expired
  }

  lemma DynamicallyUses(c: Config, n: Nat, rule: Selected, egress: Interface, p: Packet, t: Transport, now: nat,
                        q: Packet) returns (i: nat)
    requires OutboundTransport(p) == Some(t) && Dynamically(c, n, rule, egress, p, t, now).outcome == Translated(q)
    ensures var ts := Dynamically(c, n, rule, egress, p, t, now).table.translations;
            && UsedOne(n.translations, ts, i, now) && Outgoing(ts[i], p) && q == Leaving(ts[i], p)
            && (i == |n.translations| <==> First(n.translations, OutboundMatch(p, t)).None?)
  {
    match First(n.translations, OutboundMatch(p, t))
    case Some(k) => i := k;
    case None => i := |n.translations|;
  }

  /**
   What a dynamically translated packet becomes: it leaves through the translation of its flow,
   the live one if there is one and otherwise a new one, and the rest of the table stays.
   */
  lemma OutboundUses(c: Config, n: Nat, ingress: Interface, egress: Interface, p: Packet, now: nat, q: Packet)
    returns (i: nat)
    requires TranslateStatic(c.statics, p, true).None?
    requires Outbound(c, n, ingress, egress, p, now).outcome == Translated(q)
    ensures var ts, swept := Outbound(c, n, ingress, egress, p, now).table.translations, Retain(n.translations, now);
            && UsedOne(swept, ts, i, now) && Outgoing(ts[i], p) && q == Leaving(ts[i], p)
            && (i == |swept| <==> !Flowing(n, p, now))
  {
    FlowFound(n, p, now);
    i := DynamicallyUses(c, Expire(n, now), Select(c, egress).value, egress, p, OutboundTransport(p).value, now, q);
  }

  lemma AllocateCounts(c: Config, n: Nat, rule: Selected, egress: Interface, p: Packet, t: Transport, now: nat)
    ensures var r := Allocate(c, n, rule, egress, p, t, now);
            OutboundTransport(p) == Some(t) ==> Counted(n, r, r.outcome.Translated?, n.expired)
  {
  }

  lemma DynamicallyCounts(c: Config, n: Nat, rule: Selected, egress: Interface, p: Packet, t: Transport, now: nat)
    requires OutboundTransport(p) == Some(t)
    ensures var r := Dynamically(c, n, rule, egress, p, t, now);
            Counted(n, r, r.outcome.Translated? && First(n.translations, OutboundMatch(p, t)).None?, n.expired)
  {
    AllocateCounts(c, n, rule, egress, p, t, now);
  }

  /** What a permitted packet of a known flow counts as. */
  lemma OutboundCounts(c: Config, n: Nat, ingress: Interface, egress: Interface, p: Packet, now: nat)
    requires Crosses(c, ingress, egress) && TranslateStatic(c.statics, p, true).None?
    requires Permits(c, egress, p.source) && HasFlow(p)
    ensures var r, swept := Outbound(c, n, ingress, egress, p, now), Retain(n.translations, now);
            var expired := SatAdd64(n.expired, |n.translations| - |swept|);
            Counted(n, r, r.outcome.Translated? && !Flowing(n, p, now), expired)
  {
    FlowFound(n, p, now);
    var t := OutboundTransport(p).value;
    DynamicallyCounts(c, Expire(n, now), Select(c, egress).value, egress, p, t, now);
  }

  /** A packet that does not go out leaves the translations as they were, or as swept for its sake. */
  lemma OutboundRefuses(c: Config, n: Nat, ingress: Interface, egress: Interface, p: Packet, now: nat)
    ensures var r := Outbound(c, n, ingress, egress, p, now);
            && (r.outcome.Unchanged? ==> r.table == n)
            && (r.outcome.Drop? ==>
                  && r.table.drops == SatAdd64(n.drops, 1)
                  && r.table.translations == if HasFlow(p) then Retain(n.translations, now) else n.translations)
  {
  }

  /** The address a host already holds in the pool, by its oldest live translation, or else the least free one. */
  ghost predicate PoolChoice(c: Config, live: seq<Translation>, pool: Pool, overload: bool, host: Address, a: Address) {
    || (exists i :: 0 <= i < |live| && Holding(live[i], host, pool) && live[i].global == a
                    && forall j :: 0 <= j < i ==> !Holding(live[j], host, pool))
    || (&& (forall j :: 0 <= j < |live| ==> !Holding(live[j], host, pool))
        && pool.first <= a <= pool.last && Unowned(c, live, overload, a)
        && forall x :: pool.first <= x < a ==> !Unowned(c, live, overload, x))
  }

  predicate Holding(e: Translation, host: Address, pool: Pool) {
    e.local == host && pool.first <= e.global <= pool.last
  }

  /** The unused port met first from the cursor on, and the cursor just after it. */
  ghost predicate PortChoice(c: Config, live: seq<Translation>, cursor: nat, port: nat, next: nat) {
    && 10_000 <= port <= 60_000 && Unused(c, live, port)
    && (forall x :: 10_000 <= x <= 60_000 && Unused(c, live, x) ==> Distance(cursor, port) <= Distance(cursor, x))
    && next == (if port == 60_000 then 10_000 else port + 1)
  }

  lemma PoolChosen(c: Config, live: seq<Translation>, pool: Pool, overload: bool, host: Address)
    ensures var a := PoolAddress(c, live, pool, host, overload);
            a.Some? ==> PoolChoice(c, live, pool, overload, host, a.value)
  {
    FreeAddressIsLeast(c, live, overload, pool.first, pool.last);
    forall a ensures AddressTaken(c, live, overload, a) <==> !Unowned(c, live, overload, a) {
    }
    forall e: Translation ensures HeldBy(host, pool)(e) <==> Holding(e, host, pool) {
    }
  }

  lemma PortVisited(c: Config, live: seq<Translation>, cursor: nat, v: seq<nat>, k: nat, x: nat)
    requires k <= |v| && AllTaken(c, live, v[..k]) && Distance(cursor, x) >= 0
    requires Distance(cursor, x) < |v| ==> v[Distance(cursor, x)] == x
    ensures Distance(cursor, x) < k ==> PortTaken(c, live, x)
  {
    assert Distance(cursor, x) < k ==> v[..k][Distance(cursor, x)] == x;
  }

  lemma PortChosen(c: Config, live: seq<Translation>, cursor: nat)
    requires 10_000 <= cursor <= 60_000
    ensures var found := SearchPort(c, live, cursor, PORTS);
            found.port.Some? ==> PortChoice(c, live, cursor, found.port.value, found.cursor)
  {
    SearchVisits(c, live, cursor, PORTS);
    VisitsEachOnce(cursor, PORTS);
    var found, v := SearchPort(c, live, cursor, PORTS), Visits(cursor, PORTS);
    if found.port.Some? {
      var k :| 0 <= k < PORTS && v[k] == found.port.value && AllTaken(c, live, v[..k]);
      forall x | 10_000 <= x <= 60_000 && Unused(c, live, x) ensures k <= Distance(cursor, x) {
        PortVisited(c, live, cursor, v, k, x);
      }
    }
  }

  /** The global name that a new flow is given, and the cursor after it. */
  lemma NewFlowIsNamed(c: Config, n: Nat, ingress: Interface, egress: Interface, p: Packet, now: nat, q: Packet)
    requires TranslateStatic(c.statics, p, true).None? && 10_000 <= n.nextPort <= 60_000
    requires Outbound(c, n, ingress, egress, p, now).outcome == Translated(q)
    ensures var table, live := Outbound(c, n, ingress, egress, p, now).table, Retain(n.translations, now);
            if Flowing(n, p, now) then table.nextPort == n.nextPort
            else
              && |table.translations| == |live| + 1
              && var e := table.translations[|live|];
                 && (if Pooled(c)
                     then PoolChoice(c, live, c.dynamic.pool.value, c.dynamic.overload, p.source, e.global)
                     else egress in c.addresses && e.global == c.addresses[egress])
                 && (if Overloaded(c) then PortChoice(c, live, n.nextPort, e.globalPort, table.nextPort)
                     else e.globalPort == e.localPort && table.nextPort == n.nextPort)
  {
    var rule, live := Select(c, egress).value, Expire(n, now);
    FlowFound(n, p, now);
    if Pooled(c) {
      PoolChosen(c, live.translations, c.dynamic.pool.value, c.dynamic.overload, p.source);
    }
    PortChosen(c, live.translations, n.nextPort);
  }

  // ------------------------------------------------------------------------ what comes in

  ghost predicate Expected(n: Nat, p: Packet, now: nat) {
    exists e :: e in n.translations && now < e.expiresAt && Incoming(e, p)
  }

  /**
   A packet from outside is translated exactly by a static rule or through a live translation
   it is expected by; it is never dropped.
   */
  lemma InboundDecides(c: Config, n: Nat, ingress: Interface, p: Packet, now: nat)
    ensures var r, ruled := Inbound(c, n, ingress, p, now), TranslateStatic(c.statics, p, false);
            if !(ingress in c.roles && c.roles[ingress] == Outside) then r == Result(n, Unchanged)
            else if ruled.Some? then r.outcome == Translated(ruled.value)
            else !r.outcome.Drop? && (r.outcome.Translated? <==> Expected(n, p, now))
  {
    var t := InboundTransport(p);
    if t.Some? {
      var live := Expire(n, now).translations;
      RetainHas(n.translations, now);
      forall e: Translation ensures InboundMatch(p, t.value)(e) <==> Incoming(e, p) {
      }
      var found := First(live, InboundMatch(p, t.value));
      if found.Some? {
        assert live[found.value] in live;
      }
    }
  }

  /** A packet nobody expects counts as a miss, if its flow can be told, and passes. */
  lemma InboundMisses(c: Config, n: Nat, ingress: Interface, p: Packet, now: nat)
    requires ingress in c.roles && c.roles[ingress] == Outside && TranslateStatic(c.statics, p, false).None?
    requires Inbound(c, n, ingress, p, now).outcome.Unchanged?
    ensures Inbound(c, n, ingress, p, now).table
            == Expire(n, now).(misses := if HasFlow(p) then SatAdd64(n.misses, 1) else n.misses)
  {
  }

  lemma InboundUses(c: Config, n: Nat, ingress: Interface, p: Packet, now: nat, q: Packet) returns (i: nat)
    requires TranslateStatic(c.statics, p, false).None?
    requires Inbound(c, n, ingress, p, now).outcome == Translated(q)
    ensures var r, swept := Inbound(c, n, ingress, p, now), Retain(n.translations, now);
            && i < |swept| && UsedOne(swept, r.table.translations, i, now)
            && Incoming(r.table.translations[i], p) && q == Entering(r.table.translations[i], p)
            && Counted(n, r, false, SatAdd64(n.expired, |n.translations| - |swept|)) && r.table.nextPort == n.nextPort
  {
    var t := InboundTransport(p).value;
    var live := Expire(n, now).translations;
    i := First(live, InboundMatch(p, t)).value;
  }
}
