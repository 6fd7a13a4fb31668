/**
 Network address and port translation: static rules first, then dynamic translations that
 expire sixty seconds after their last packet.
 */
module NatSpec {
  import opened Prelude

  const TIMEOUT_US: nat := 60_000_000
  const PORT_FIRST: nat := 10_000
  const PORT_LAST: nat := 60_000
  const PORTS: nat := PORT_LAST - PORT_FIRST + 1
  const MAX_TRANSLATIONS: nat := 16384

  type Address = nat
  type Interface = nat

  datatype Protocol = Icmp | Udp | Tcp

  /** What translation sees of a payload; `Broken` is a UDP or TCP payload that does not decode. */
  datatype Payload =
    | Datagram(tcp: bool, sourcePort: nat, destinationPort: nat)
    | Echo(identifier: nat)
    | Opaque
    | Broken

  datatype Packet = Packet(source: Address, destination: Address, payload: Payload)

  datatype Transport = Transport(protocol: Protocol, port: nat, peer: nat)

  function OutboundTransport(p: Packet): Option<Transport> {
    match p.payload
    case Datagram(tcp, source, destination) => Some(Transport(if tcp then Tcp else Udp, source, destination))
    case Echo(identifier) => Some(Transport(Icmp, identifier, 0))
    case _ => None
  }

  function InboundTransport(p: Packet): Option<Transport> {
    match p.payload
    case Datagram(tcp, source, destination) => Some(Transport(if tcp then Tcp else Udp, destination, source))
    case Echo(identifier) => Some(Transport(Icmp, identifier, 0))
    case _ => None
  }

  /** Replace one address and, if asked, the port on the same side. */
  function Rewrite(p: Packet, address: Address, port: Option<nat>, source: bool): Option<Packet> {
    var moved := if source then p.(source := address) else p.(destination := address);
    match p.payload
    case Datagram(tcp, s, d) =>
      if port.None? then Some(moved)
      else if source then Some(moved.(payload := Datagram(tcp, port.value, d)))
      else Some(moved.(payload := Datagram(tcp, s, port.value)))
    case Echo(_) => Some(if port.None? then moved else moved.(payload := Echo(port.value)))
    case Opaque => if port.None? then Some(moved) else None
    case Broken => None
  }

  /** The packet a correspondent sends back. */
  function Reply(p: Packet): Packet {
    Packet(p.destination, p.source,
           match p.payload
           case Datagram(tcp, s, d) => Datagram(tcp, d, s)
           case other => other)
  }

  // --------------------------------------------------------------------- configuration

  datatype StaticRule =
    | AddressRule(local: Address, global: Address)
    | PortRule(tcp: bool, local: Address, localPort: nat, global: Address, globalPort: nat)

  datatype Pool = Pool(first: Address, last: Address)

  /** The one dynamic rule: a pool, or the address of one outside interface. */
  datatype Dynamic =
    | NoRule
    | PoolRule(permitted: set<Address>, pool: Option<Pool>, overload: bool)
    | InterfaceRule(permitted: set<Address>, egress: Interface)

  datatype Role = Inside | Outside

  datatype Config = Config(
    roles: map<Interface, Role>,
    addresses: map<Interface, Address>,
    statics: seq<StaticRule>,
    dynamic: Dynamic)

  datatype Translation = Translation(
    protocol: Protocol,
    local: Address,
    localPort: nat,
    global: Address,
    globalPort: nat,
    outside: Address,
    outsidePort: nat,
    expiresAt: nat)

  datatype Nat = Nat(
    translations: seq<Translation>,
    nextPort: nat,
    hits: nat,
    misses: nat,
    allocations: nat,
    expired: nat,
    drops: nat)

  const EMPTY := Nat([], PORT_FIRST, 0, 0, 0, 0, 0)

  datatype Outcome = Unchanged | Translated(packet: Packet) | Drop

  datatype Result = Result(table: Nat, outcome: Outcome)

  /** `Iterator::find` and `position`. */
  function First<T>(s: seq<T>, test: T -> bool): (index: Option<nat>)
    ensures index.Some? ==> index.value < |s| && test(s[index.value]) && forall j :: 0 <= j < index.value ==>
            !test(s[j])
    ensures index.None? ==> forall j :: 0 <= j < |s| ==> !test(s[j])
  {
    if s == [] then None
    else
      var n := |s| - 1;
      match First(s[..n], test)
      case Some(i) => Some(i)
      case None => if test(s[n]) then Some(n) else None
  }

  // ----------------------------------------------------------------------- static rules

  function StaticMatch(p: Packet, source: bool): StaticRule -> bool {
    (rule: StaticRule) =>
      (if source then rule.local else rule.global) == (if source then p.source else p.destination)
      && match rule
         case AddressRule(_, _) => true
         case PortRule(tcp, _, localPort, _, globalPort) =>
           var transport := if source then OutboundTransport(p) else InboundTransport(p);
           transport.Some? && transport.value.protocol == (if tcp then Tcp else Udp)
           && transport.value.port == (if source then localPort else globalPort)
  }

  function ApplyStatic(rule: StaticRule, p: Packet, source: bool): Option<Packet> {
    var port := match rule
                case AddressRule(_, _) => None
                case PortRule(_, _, localPort, _, globalPort) => Some(if source then globalPort else localPort);
    Rewrite(p, if source then rule.global else rule.local, port, source)
  }

  function TranslateStatic(statics: seq<StaticRule>, p: Packet, source: bool): Option<Packet> {
    match First(statics, StaticMatch(p, source))
    case None => None
    case Some(i) => ApplyStatic(statics[i], p, source)
  }

  // ----------------------------------------------------------------------------- expiry

  function Retain(ts: seq<Translation>, now: nat): (kept: seq<Translation>)
    ensures |kept| <= |ts|
  {
    if ts == [] then []
    else
      var n := |ts| - 1;
      Retain(ts[..n], now) + (if ts[n].expiresAt > now then [ts[n]] else [])
  }

  function Expire(n: Nat, now: nat): Nat {
    var kept := Retain(n.translations, now);
    n.(translations := kept, expired := SatAdd64(n.expired, |n.translations| - |kept|))
  }

  // ------------------------------------------------------------------------- allocation

  predicate PortTaken(c: Config, ts: seq<Translation>, port: nat) {
    || (exists i :: 0 <= i < |ts| && ts[i].globalPort == port)
    || (exists i :: 0 <= i < |c.statics| && c.statics[i].PortRule? && c.statics[i].globalPort == port)
  }

  function NextPort(port: nat): nat {
    if port >= PORT_LAST then PORT_FIRST else port + 1
  }

  datatype Found = Found(port: Option<nat>, cursor: nat)

  /** Try `tries` ports from the cursor on, wrapping at the end of the range. */
  function SearchPort(c: Config, ts: seq<Translation>, cursor: nat, tries: nat): Found
    decreases tries
  {
    if tries == 0 then Found(None, cursor)
    else if !PortTaken(c, ts, cursor) then Found(Some(cursor), NextPort(cursor))
    else SearchPort(c, ts, NextPort(cursor), tries - 1)
  }

  predicate AddressTaken(c: Config, ts: seq<Translation>, overload: bool, address: Address) {
    || (exists i :: 0 <= i < |c.statics| && c.statics[i].global == address)
    || (!overload && exists i :: 0 <= i < |ts| && ts[i].global == address)
  }

  function FreeAddress(c: Config, ts: seq<Translation>, overload: bool, from: Address, last: Address): Option<Address>
    decreases last + 1 - from
  {
    if from > last then None
    else if !AddressTaken(c, ts, overload, from) then Some(from)
    else FreeAddress(c, ts, overload, from + 1, last)
  }

  function HeldBy(local: Address, pool: Pool): Translation -> bool {
    (t: Translation) => t.local == local && pool.first <= t.global <= pool.last
  }

  /** The pool address this local address already holds, or the first free one. */
  function PoolAddress(c: Config, ts: seq<Translation>, pool: Pool, local: Address, overload: bool): Option<Address> {
    match First(ts, HeldBy(local, pool))
    case Some(i) => Some(ts[i].global)
    case None => FreeAddress(c, ts, overload, pool.first, pool.last)
  }

  // ------------------------------------------------------------------------ both ways

  function OutboundMatch(p: Packet, t: Transport): Translation -> bool {
    (e: Translation) => e.protocol == t.protocol && e.local == p.source && e.localPort == t.port
         && e.outside == p.destination && e.outsidePort == t.peer
  }

  function InboundMatch(p: Packet, t: Transport): Translation -> bool {
    (e: Translation) => e.protocol == t.protocol && e.global == p.destination && e.globalPort == t.port
         && e.outside == p.source && e.outsidePort == t.peer
  }

  function Dropped(n: Nat): Result {
    Result(n.(drops := SatAdd64(n.drops, 1)), Drop)
  }

  /** The dynamic rule in force for one egress. */
  datatype Selected = Selected(permitted: set<Address>, pool: Option<Pool>, overload: bool)

  function Select(c: Config, egress: Interface): Option<Selected> {
    match c.dynamic
    case NoRule => None
    case PoolRule(permitted, pool, overload) => Some(Selected(permitted, pool, overload))
    case InterfaceRule(permitted, outside) => if outside == egress then Some(Selected(permitted, None, true)) else None
  }

  function GlobalAddress(c: Config, ts: seq<Translation>, rule: Selected, egress: Interface,
                         local: Address): Option<Address>
  {
    if rule.pool.Some? then PoolAddress(c, ts, rule.pool.value, local, rule.overload)
    else if egress in c.addresses then Some(c.addresses[egress])
    else None
  }

  /** Refresh translation `i` and send the packet out under its global name. */
  function UseOutbound(n: Nat, p: Packet, i: nat, now: nat): Result
    requires i < |n.translations|
  {
    var e := n.translations[i].(expiresAt := SatAdd64(now, TIMEOUT_US));
    var used := n.(translations := n.translations[i := e]);
    match Rewrite(p, e.global, Some(e.globalPort), true)
    case Some(q) => Result(used.(hits := SatAdd64(n.hits, 1)), Translated(q))
    case None => Dropped(used)
  }

  /** Create a translation for a flow that has none. */
  function Allocate(c: Config, n: Nat, rule: Selected, egress: Interface, p: Packet, t: Transport, now: nat): Result {
    if |n.translations| >= MAX_TRANSLATIONS then Dropped(n)
    else
      match GlobalAddress(c, n.translations, rule, egress, p.source)
      case None => Dropped(n)
      case Some(global) =>
        var found := if rule.overload then SearchPort(c, n.translations, n.nextPort, PORTS)
                     else Found(Some(t.port), n.nextPort);
        var moved := n.(nextPort := found.cursor);
        match found.port
        case None => Dropped(moved)
        case Some(port) =>
          var entry := Translation(t.protocol, p.source, t.port, global, port, p.destination, t.peer, now);
          UseOutbound(moved.(translations := n.translations + [entry], allocations := SatAdd64(n.allocations, 1)),
                      p, |n.translations|, now)
  }

  function Outbound(c: Config, n: Nat, ingress: Interface, egress: Interface, p: Packet, now: nat): Result {
    if !(ingress in c.roles && c.roles[ingress].Inside? && egress in c.roles && c.roles[egress].Outside?) then
      Result(n, Unchanged)
    else
      match TranslateStatic(c.statics, p, true)
      case Some(q) => Result(n.(hits := SatAdd64(n.hits, 1)), Translated(q))
      case None =>
        var rule := Select(c, egress);
        if rule.None? || p.source !in rule.value.permitted then Result(n, Unchanged)
        else if OutboundTransport(p).None? then Dropped(n)
        else Dynamically(c, Expire(n, now), rule.value, egress, p, OutboundTransport(p).value, now)
  }

  function Dynamically(c: Config, n: Nat, rule: Selected, egress: Interface, p: Packet, t: Transport, now: nat): Result
  {
    match First(n.translations, OutboundMatch(p, t))
    case Some(i) => UseOutbound(n, p, i, now)
    case None => Allocate(c, n, rule, egress, p, t, now)
  }

  /** `Unchanged` also covers packets no translation claims. */
  function Inbound(c: Config, n: Nat, ingress: Interface, p: Packet, now: nat): Result {
    if !(ingress in c.roles && c.roles[ingress].Outside?) then Result(n, Unchanged)
    else
      match TranslateStatic(c.statics, p, false)
      case Some(q) => Result(n.(hits := SatAdd64(n.hits, 1)), Translated(q))
      case None =>
        var live := Expire(n, now);
        match InboundTransport(p)
        case None => Result(live, Unchanged)
        case Some(t) => UseInbound(live, p, First(live.translations, InboundMatch(p, t)), now)
  }

  function UseInbound(n: Nat, p: Packet, index: Option<nat>, now: nat): Result
    requires index.Some? ==> index.value < |n.translations|
  {
    match index
    case None => Result(n.(misses := SatAdd64(n.misses, 1)), Unchanged)
    case Some(i) =>
      var e := n.translations[i].(expiresAt := SatAdd64(now, TIMEOUT_US));
      var used := n.(translations := n.translations[i := e]);
      match Rewrite(p, e.local, Some(e.localPort), false)
      case Some(q) => Result(used.(hits := SatAdd64(n.hits, 1)), Translated(q))
      case None => Result(used, Unchanged)
  }
}
