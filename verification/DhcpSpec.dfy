/** The DHCP server's allocator: offers, bindings and quarantined addresses. */
module DhcpSpec {
  import opened Prelude

  type Mac = nat
  type Address = nat
  type Interface = nat
  type PoolId = nat

  const MAX_BINDINGS: nat := 8192
  const OFFER_US: nat := 60_000_000
  const QUARANTINE_US: nat := 600_000_000

  datatype Network = Network(base: Address, prefixLen: nat)

  /** Number of addresses under a prefix. */
  function Hosts(prefixLen: nat): (n: nat)
    ensures n >= 1
    decreases 32 - prefixLen
  {
    if prefixLen >= 32 then 1 else 2 * Hosts(prefixLen + 1)
  }

  predicate ValidNetwork(n: Network) {
    n.prefixLen <= 32 && n.base % Hosts(n.prefixLen) == 0 && n.base + Hosts(n.prefixLen) <= U32_MAX + 1
  }

  function Broadcast(n: Network): Address {
    n.base + Hosts(n.prefixLen) - 1
  }

  /** Clearing the host bits of the address gives the network. */
  predicate Contains(n: Network, a: Address) {
    a - a % Hosts(n.prefixLen) == n.base
  }

  lemma ContainsIsInterval(n: Network, a: Address)
    requires ValidNetwork(n)
    ensures Contains(n, a) <==> n.base <= a <= Broadcast(n)
  {
    var h := Hosts(n.prefixLen);
    var q := n.base / h;
    assert n.base == h * q;
    if n.base <= a <= Broadcast(n) {
      RemainderOf(a, h, q);
    }
  }

  lemma TimesMonotone(h: nat, a: nat, b: nat)
    requires a <= b
    ensures h * a <= h * b
  {
  }

  lemma RemainderOf(a: nat, h: nat, q: nat)
    requires h > 0 && h * q <= a < h * q + h
    ensures a % h == a - h * q
  {
    var k := a / h;
    assert a == h * k + a % h;
    if k < q {
      TimesMonotone(h, k + 1, q);
    }
    if k > q {
      TimesMonotone(h, q + 1, k);
    }
  }

  datatype PoolConfig = PoolConfig(
    name: string,
    network: Option<Network>,
    hardware: Option<Mac>,
    reserved: Option<Address>,
    router: Option<Address>,
    leaseSeconds: nat)

  /** `excluded` maps the first address of each excluded range to its last. */
  datatype Config = Config(
    pools: map<PoolId, PoolConfig>,
    excluded: map<Address, Address>,
    interfaces: map<Interface, Address>)

  predicate ValidConfig(c: Config) {
    && (forall id :: id in c.pools && c.pools[id].network.Some? ==> ValidNetwork(c.pools[id].network.value))
    && (forall first :: first in c.excluded ==> c.excluded[first] <= U32_MAX)
  }

  datatype Offer = Offer(
    address: Address,
    prefixLen: nat,
    router: Option<Address>,
    server: Address,
    leaseSeconds: nat,
    pool: PoolId,
    expiresAt: nat)

  datatype Binding = Binding(address: Address, mac: Mac, poolName: string, expiresAt: nat)

  datatype Server = Server(offers: map<Mac, Offer>, bindings: map<Mac, Binding>, conflicts: map<Address, nat>)

  datatype Reply = Reply(server: Server, offer: Option<Offer>)

  function Expire(s: Server, now: nat): Server {
    Server(map m | m in s.offers && s.offers[m].expiresAt > now :: s.offers[m],
           map m | m in s.bindings && s.bindings[m].expiresAt > now :: s.bindings[m],
           map a | a in s.conflicts && s.conflicts[a] > now :: s.conflicts[a])
  }

  // --------------------------------------------------------------------- pool selection

  /** A pool this client may draw from, for a request arriving from `subnet`. */
  predicate Eligible(c: Config, mac: Mac, subnet: Address, id: PoolId) {
    && id in c.pools && c.pools[id].network.Some? && Contains(c.pools[id].network.value, subnet)
    && (c.pools[id].hardware.None? || c.pools[id].hardware == Some(mac))
    && (c.pools[id].reserved.None? || c.pools[id].hardware == Some(mac))
  }

  /** Reservations come before shared pools, then older pools first. */
  predicate Prefer(c: Config, a: PoolId, b: PoolId)
    requires a in c.pools && b in c.pools
  {
    if c.pools[a].reserved.Some? != c.pools[b].reserved.Some? then c.pools[a].reserved.Some? else a <= b
  }

  ghost predicate Chosen(c: Config, mac: Mac, subnet: Address, id: PoolId) {
    && Eligible(c, mac, subnet, id)
    && forall other :: other in c.pools && Eligible(c, mac, subnet, other) ==> Prefer(c, id, other)
  }

  lemma ChosenIsUnique(c: Config, mac: Mac, subnet: Address, a: PoolId, b: PoolId)
    requires Chosen(c, mac, subnet, a) && Chosen(c, mac, subnet, b)
    ensures a == b
  {
  }

  ghost function SelectPool(c: Config, mac: Mac, subnet: Address): (r: Option<PoolId>)
    ensures r.Some? ==> Chosen(c, mac, subnet, r.value)
  {
    if exists id :: Chosen(c, mac, subnet, id) then
      var id :| Chosen(c, mac, subnet, id);
      Some(id)
    else None
  }

  // ------------------------------------------------------------------ allowed addresses

  /** Every address `mac` must not be given. */
  function Used(c: Config, s: Server, mac: Mac): set<Address> {
    (set m | m in s.bindings && m != mac :: s.bindings[m].address)
    + (set m | m in s.offers && m != mac :: s.offers[m].address)
    + (set i | i in c.interfaces :: c.interfaces[i])
    + (set id | id in c.pools && c.pools[id].hardware != Some(mac)
       && c.pools[id].reserved.Some? :: c.pools[id].reserved.value)
    + s.conflicts.Keys
  }

  predicate Excluded(c: Config, a: Address) {
    exists first :: first in c.excluded && first <= a <= c.excluded[first]
  }

  predicate Allowed(c: Config, pool: PoolConfig, used: set<Address>, a: Address)
    requires pool.network.Some?
  {
    && Contains(pool.network.value, a)
    && a != pool.network.value.base && a != Broadcast(pool.network.value)
    && a !in used && pool.router != Some(a) && !Excluded(c, a)
  }

  /** The plain search: one address after another. */
  function LowestAllowed(c: Config, pool: PoolConfig, used: set<Address>, from: Address, last: Address): Option<Address>
    requires pool.network.Some?
    decreases last + 1 - from
  {
    if from > last then None
    else if Allowed(c, pool, used, from) then Some(from)
    else LowestAllowed(c, pool, used, from + 1, last)
  }

  function FirstHost(n: Network): Address {
    Min(n.base + 1, U32_MAX)
  }

  function LastHost(n: Network): Address {
    SatSub(Broadcast(n), 1)
  }

  /** Which address a client of this pool is offered: its reservation, its previous one, or the lowest. */
  function PickAddress(c: Config, pool: PoolConfig, used: set<Address>, previous: Option<Address>): Option<Address>
    requires pool.network.Some?
  {
    if pool.reserved.Some? then (if Allowed(c, pool, used, pool.reserved.value) then pool.reserved else None)
    else if previous.Some? && Allowed(c, pool, used, previous.value) then previous
    else LowestAllowed(c, pool, used, FirstHost(pool.network.value), LastHost(pool.network.value))
  }

  function Previous(s: Server, mac: Mac, pool: PoolConfig): Option<Address> {
    if mac in s.bindings && s.bindings[mac].poolName == pool.name then Some(s.bindings[mac].address) else None
  }

  // ------------------------------------------------------------------------- operations

  ghost function MakeOffer(c: Config, s: Server, interface: Interface, mac: Mac, subnet: Address, now: nat): Reply {
    if interface !in c.interfaces then Reply(s, None)
    else
      match SelectPool(c, mac, subnet)
      case None => Reply(Expire(s, now), None)
      case Some(id) => OfferFrom(c, Expire(s, now), c.interfaces[interface], mac, id, now)
  }

  function OfferFrom(c: Config, s: Server, serverId: Address, mac: Mac, id: PoolId, now: nat): Reply
    requires id in c.pools && c.pools[id].network.Some?
  {
    var pool := c.pools[id];
    if mac in s.offers && s.offers[mac].pool == id then Reply(s, Some(s.offers[mac]))
    else
      var previous := Previous(s, mac, pool);
      if |s.offers| + |s.bindings| >= MAX_BINDINGS && previous.None? then Reply(s, None)
      else
        match PickAddress(c, pool, Used(c, s, mac), previous)
        case None => Reply(s, None)
        case Some(a) =>
          var offer := Offer(a, pool.network.value.prefixLen, pool.router, serverId, pool.leaseSeconds, id,
                             SatAdd64(now, OFFER_US));
          Reply(s.(offers := s.offers[mac := offer]), Some(offer))
  }

  function Commit(c: Config, s: Server, mac: Mac, address: Address, serverId: Address, now: nat): Reply {
    var live := Expire(s, now);
    if mac !in live.offers || live.offers[mac].address != address
      || live.offers[mac].server != serverId then Reply(live, None)
    else
      var offer := live.offers[mac];
      var leased := offer.(expiresAt := SatAdd64(now, offer.leaseSeconds * 1_000_000));
      var taken := live.(offers := live.offers - {mac});
      if offer.pool !in c.pools then Reply(taken, None)
      else
        var binding := Binding(address, mac, c.pools[offer.pool].name, leased.expiresAt);
        Reply(taken.(bindings := live.bindings[mac := binding]), Some(leased))
  }

  function Decline(s: Server, mac: Mac, address: Address, now: nat): Server {
    if (mac in s.bindings && s.bindings[mac].address == address)
      || (mac in s.offers && s.offers[mac].address == address) then
      Server(s.offers - {mac}, s.bindings - {mac},
             if |s.conflicts| < MAX_BINDINGS then s.conflicts[address := SatAdd64(now, QUARANTINE_US)] else s.conflicts)
    else s
  }

  const EMPTY := Server(map[], map[], map[])
}
