/** The translation table of one router, proved against `NatSpec`. */
module NatObject {
  import opened Prelude
  import opened NatSpec

  class NatTable {
    var translations: seq<Translation>
    var nextPort: nat
    var hits: nat
    var misses: nat
    var allocations: nat
    var expired: nat
    var drops: nat

    ghost function Value(): Nat
      reads this
    {
      Nat(translations, nextPort, hits, misses, allocations, expired, drops)
    }

    constructor ()
      ensures Value() == EMPTY
    {
      translations, nextPort := [], PORT_FIRST;
      hits, misses, allocations, expired, drops := 0, 0, 0, 0, 0;
    }

    method FindFirst<T>(s: seq<T>, test: T -> bool) returns (index: Option<nat>)
      ensures index == First(s, test)
    {
      var i := 0;
      while i < |s|
        invariant 0 <= i <= |s|
        invariant First(s[..i], test) == None
      {
        assert s[..i + 1][..i] == s[..i];
        if test(s[i]) {
          FirstPrefix(s, i + 1, test);
          return Some(i);
        }
        i := i + 1;
      }
      assert s[..i] == s;
      return None;
    }

    /** Keep what has not expired. */
    method Expire(now: nat)
      modifies this
      ensures Value() == NatSpec.Expire(old(Value()), now)
    {
      var kept := [];
      for i := 0 to |translations|
        invariant kept == Retain(translations[..i], now)
        invariant Value() == old(Value())
      {
        assert translations[..i + 1][..i] == translations[..i];
        if translations[i].expiresAt > now {
          kept := kept + [translations[i]];
        }
      }
      assert translations[..|translations|] == translations;
      expired := SatAdd64(expired, |translations| - |kept|);
      translations := kept;
    }

    /** The first free port from the cursor on; the cursor moves past it. */
    method AllocatePort(c: Config) returns (port: Option<nat>)
      modifies this`nextPort
      ensures Found(port, nextPort) == SearchPort(c, translations, old(nextPort), PORTS)
    {
      var tries := PORTS;
      while tries > 0
        invariant 0 <= tries <= PORTS
        invariant SearchPort(c, translations, old(nextPort), PORTS) == SearchPort(c, translations, nextPort, tries)
      {
        var candidate := nextPort;
        nextPort := if candidate >= PORT_LAST then PORT_FIRST else candidate + 1;
        if !PortTaken(c, translations, candidate) {
          return Some(candidate);
        }
        tries := tries - 1;
      }
      return None;
    }

    method PoolAddress(c: Config, pool: Pool, local: Address, overload: bool) returns (address: Option<Address>)
      ensures address == NatSpec.PoolAddress(c, translations, pool, local, overload)
    {
      var held := FindFirst(translations, HeldBy(local, pool));
      if held.Some? {
        return Some(translations[held.value].global);
      }
      var candidate := pool.first;
      while candidate <= pool.last
        invariant FreeAddress(c, translations, overload, pool.first, pool.last)
                  == FreeAddress(c, translations, overload, candidate, pool.last)
        decreases pool.last + 1 - candidate
      {
        if !AddressTaken(c, translations, overload, candidate) {
          return Some(candidate);
        }
        candidate := candidate + 1;
      }
      return None;
    }

    method Drop() returns (outcome: Outcome)
      modifies this`drops
      ensures Result(Value(), outcome) == Dropped(old(Value()))
    {
      drops := SatAdd64(drops, 1);
      return Outcome.Drop;
    }

    method Static(c: Config, p: Packet, source: bool) returns (rewritten: Option<Packet>)
      modifies this`hits
      ensures rewritten == TranslateStatic(c.statics, p, source)
      ensures hits == if rewritten.Some? then SatAdd64(old(hits), 1) else old(hits)
    {
      var index := FindFirst(c.statics, StaticMatch(p, source));
      if index.None? {
        return None;
      }
      rewritten := ApplyStatic(c.statics[index.value], p, source);
      if rewritten.Some? {
        hits := SatAdd64(hits, 1);
      }
    }

    method UseOutbound(p: Packet, i: nat, now: nat) returns (outcome: Outcome)
      requires i < |translations|
      modifies this
      ensures Result(Value(), outcome) == NatSpec.UseOutbound(old(Value()), p, i, now)
    {
      translations := translations[i := translations[i].(expiresAt := SatAdd64(now, TIMEOUT_US))];
      var q := Rewrite(p, translations[i].global, Some(translations[i].globalPort), true);
      if q.Some? {
        hits := SatAdd64(hits, 1);
        return Translated(q.value);
      }
      outcome := Drop();
    }

    /** Add a translation for a new flow, unless the table, the pool or the ports are exhausted. */
    method Allocate(c: Config, rule: Selected, egress: Interface, p: Packet, t: Transport, now: nat)
      returns (outcome: Outcome)
      modifies this
      ensures Result(Value(), outcome) == NatSpec.Allocate(c, old(Value()), rule, egress, p, t, now)
    {
      if |translations| >= MAX_TRANSLATIONS {
        outcome := Drop();
        return;
      }
      var global: Option<Address> := None;
      if rule.pool.Some? {
        global := PoolAddress(c, rule.pool.value, p.source, rule.overload);
      } else if egress in c.addresses {
        global := Some(c.addresses[egress]);
      }
      if global.None? {
        outcome := Drop();
        return;
      }
      var port := Some(t.port);
      if rule.overload {
        port := AllocatePort(c);
      }
      if port.None? {
        outcome := Drop();
        return;
      }
      translations := translations
        + [Translation(t.protocol, p.source, t.port, global.value, port.value, p.destination, t.peer, now)];
      allocations := SatAdd64(allocations, 1);
      outcome := UseOutbound(p, |translations| - 1, now);
    }

    /** Translate inside-to-outside traffic or reject it when allocation fails. */
    method Outbound(c: Config, ingress: Interface, egress: Interface, p: Packet, now: nat) returns (outcome: Outcome)
      modifies this
      ensures Result(Value(), outcome) == NatSpec.Outbound(c, old(Value()), ingress, egress, p, now)
    {
      if !(ingress in c.roles && c.roles[ingress].Inside? && egress in c.roles && c.roles[egress].Outside?) {
        return Unchanged;
      }
      var mapped := Static(c, p, true);
      if mapped.Some? {
        return Translated(mapped.value);
      }
      var rule := Select(c, egress);
      if rule.None? || p.source !in rule.value.permitted {
        return Unchanged;
      }
      var transport := OutboundTransport(p);
      if transport.None? {
        outcome := Drop();
        return;
      }
      Expire(now);
      var existing := FindFirst(translations, OutboundMatch(p, transport.value));
      if existing.Some? {
        outcome := UseOutbound(p, existing.value, now);
      } else {
        outcome := Allocate(c, rule.value, egress, p, transport.value, now);
      }
    }

    /** Reverse outside traffic before local delivery or route lookup. */
    method Inbound(c: Config, ingress: Interface, p: Packet, now: nat) returns (outcome: Outcome)
      modifies this
      ensures Result(Value(), outcome) == NatSpec.Inbound(c, old(Value()), ingress, p, now)
    {
      if !(ingress in c.roles && c.roles[ingress].Outside?) {
        return Unchanged;
      }
      var mapped := Static(c, p, false);
      if mapped.Some? {
        return Translated(mapped.value);
      }
      Expire(now);
      var transport := InboundTransport(p);
      if transport.None? {
        return Unchanged;
      }
      var index := FindFirst(translations, InboundMatch(p, transport.value));
      if index.None? {
        misses := SatAdd64(misses, 1);
        return Unchanged;
      }
      var i := index.value;
      translations := translations[i := translations[i].(expiresAt := SatAdd64(now, TIMEOUT_US))];
      var q := Rewrite(p, translations[i].local, Some(translations[i].localPort), false);
      if q.None? {
        return Unchanged;
      }
      hits := SatAdd64(hits, 1);
      return Translated(q.value);
    }

    method Clear()
      modifies this`translations
      ensures translations == []
    {
      translations := [];
    }
  }

  /** Once a prefix has a first match, every longer prefix has the same one. */
  lemma FirstPrefix<T>(s: seq<T>, n: nat, test: T -> bool)
    requires n <= |s| && First(s[..n], test).Some?
    ensures First(s, test) == First(s[..n], test)
    decreases |s|
  {
    if n < |s| {
      assert s[..|s| - 1][..n] == s[..n];
      FirstPrefix(s[..|s| - 1], n, test);
    } else {
      assert s[..n] == s;
    }
  }
}
