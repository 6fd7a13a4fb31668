/** The server's mutable tables, proved against `DhcpSpec`. */
module DhcpObject {
  import opened Prelude
  import opened DhcpSpec

  class DhcpServer {
    var offers: map<Mac, Offer>
    var bindings: map<Mac, Binding>
    var conflicts: map<Address, nat>

    ghost function Value(): Server
      reads this
    {
      Server(offers, bindings, conflicts)
    }

    constructor ()
      ensures Value() == EMPTY
    {
      offers, bindings, conflicts := map[], map[], map[];
    }

    method Expire(now: nat)
      modifies this
      ensures Value() == DhcpSpec.Expire(old(Value()), now)
    {
      conflicts := map a | a in conflicts && conflicts[a] > now :: conflicts[a];
      offers := map m | m in offers && offers[m].expiresAt > now :: offers[m];
      bindings := map m | m in bindings && bindings[m].expiresAt > now :: bindings[m];
    }

    method FindPool(c: Config, mac: Mac, subnet: Address) returns (best: Option<PoolId>)
      ensures best == SelectPool(c, mac, subnet)
    {
      best := None;
      var keys := KeysInOrder(c.pools.Keys);
      for i := 0 to |keys|
        invariant best.None? ==> forall j :: 0 <= j < i ==> !Eligible(c, mac, subnet, keys[j])
        invariant best.Some? ==> Eligible(c, mac, subnet, best.value)
                                 && forall j :: 0 <= j < i && Eligible(c, mac, subnet, keys[j]) ==>
                                   Prefer(c, best.value, keys[j])
      {
        if Eligible(c, mac, subnet, keys[i]) && (best.None? || !Prefer(c, best.value, keys[i])) {
          best := Some(keys[i]);
        }
      }
      assert forall id :: id in keys <==> id in c.pools;
      if best.Some? {
        assert Chosen(c, mac, subnet, best.value);
        ChosenIsUnique(c, mac, subnet, best.value, SelectPool(c, mac, subnet).value);
      }
    }

    /** The furthest end of the excluded ranges around `a`, if any. */
    method ExcludedUntil(c: Config, a: Address) returns (end: Option<Address>)
      ensures end.None? <==> !Excluded(c, a)
      ensures end.Some? ==> exists first :: first in c.excluded && first <= a <= end.value == c.excluded[first]
      ensures forall first :: first in c.excluded && first <= a <= c.excluded[first] ==> c.excluded[first] <= end.value
    {
      end := None;
      var keys := KeysInOrder(c.excluded.Keys);
      assert forall k :: k in keys <==> k in c.excluded;
      for i := 0 to |keys|
        invariant forall j :: 0 <= j < i && keys[j] <= a <= c.excluded[keys[j]] ==>
                  end.Some? && c.excluded[keys[j]] <= end.value
        invariant end.Some? ==> exists j :: 0 <= j < i && keys[j] <= a <= end.value == c.excluded[keys[j]]
      {
        var last := c.excluded[keys[i]];
        if keys[i] <= a <= last && (end.None? || end.value < last) {
          end := Some(last);
        }
      }
    }

    /** Search upwards, jumping over excluded ranges. */
    method SearchAddress(c: Config, pool: PoolConfig, used: set<Address>) returns (address: Option<Address>)
      requires ValidConfig(c) && pool.network.Some? && ValidNetwork(pool.network.value)
      ensures address == LowestAllowed(c, pool, used, FirstHost(pool.network.value), LastHost(pool.network.value))
    {
      var network := pool.network.value;
      var candidate := FirstHost(network);
      var last := LastHost(network);
      while candidate <= last
        invariant LowestAllowed(c, pool, used, FirstHost(network), last)
                  == LowestAllowed(c, pool, used, candidate, last)
        decreases last + 1 - candidate
      {
        var end := ExcludedUntil(c, candidate);
        if end.Some? {
          SkipExcluded(c, pool, used, candidate, end.value, last);
          if end.value + 1 > U32_MAX {
            return None;
          }
          candidate := end.value + 1;
        } else if Allowed(c, pool, used, candidate) {
          return Some(candidate);
        } else {
          candidate := candidate + 1;
        }
      }
      return None;
    }

    /** Select a pool by the subnet of the request and reserve an address in it. */
    method MakeOffer(c: Config, interface: Interface, mac: Mac, subnet: Address, now: nat)
        returns (offer: Option<Offer>)
      requires ValidConfig(c)
      modifies this
      ensures Reply(Value(), offer) == DhcpSpec.MakeOffer(c, old(Value()), interface, mac, subnet, now)
    {
      if interface !in c.interfaces {
        return None;
      }
      Expire(now);
      var id := FindPool(c, mac, subnet);
      if id.None? {
        return None;
      }
      var pool := c.pools[id.value];
      if mac in offers && offers[mac].pool == id.value {
        return Some(offers[mac]);
      }
      var previous := None;
      if mac in bindings && bindings[mac].poolName == pool.name {
        previous := Some(bindings[mac].address);
      }
      if |offers| + |bindings| >= MAX_BINDINGS && previous.None? {
        return None;
      }
      var used := Used(c, Server(offers, bindings, conflicts), mac);
      var address;
      if pool.reserved.Some? {
        if !Allowed(c, pool, used, pool.reserved.value) {
          return None;
        }
        address := pool.reserved;
      } else if previous.Some? && Allowed(c, pool, used, previous.value) {
        address := previous;
      } else {
        address := SearchAddress(c, pool, used);
        if address.None? {
          return None;
        }
      }
      var made := Offer(address.value, pool.network.value.prefixLen, pool.router, c.interfaces[interface],
                        pool.leaseSeconds, id.value, SatAdd64(now, OFFER_US));
      offers := offers[mac := made];
      return Some(made);
    }

    /** Turn an offer into a binding. */
    method Commit(c: Config, mac: Mac, address: Address, server: Address, now: nat) returns (lease: Option<Offer>)
      modifies this
      ensures Reply(Value(), lease) == DhcpSpec.Commit(c, old(Value()), mac, address, server, now)
    {
      Expire(now);
      if mac !in offers || offers[mac].address != address || offers[mac].server != server {
        return None;
      }
      var offer := offers[mac];
      offers := offers - {mac};
      var leased := offer.(expiresAt := SatAdd64(now, offer.leaseSeconds * 1_000_000));
      if offer.pool !in c.pools {
        return None;
      }
      bindings := bindings[mac := Binding(address, mac, c.pools[offer.pool].name, leased.expiresAt)];
      return Some(leased);
    }

    /** Quarantine an address its holder found in use. */
    method Decline(mac: Mac, address: Address, now: nat)
      modifies this
      ensures Value() == DhcpSpec.Decline(old(Value()), mac, address, now)
    {
      var valid := (mac in bindings && bindings[mac].address == address)
        || (mac in offers && offers[mac].address == address);
      if valid {
        bindings := bindings - {mac};
        offers := offers - {mac};
        if |conflicts| < MAX_BINDINGS {
          conflicts := conflicts[address := SatAdd64(now, QUARANTINE_US)];
        }
      }
    }
  }

  /** Jumping over an excluded range skips no allowed address. */
  lemma SkipExcluded(c: Config, pool: PoolConfig, used: set<Address>, from: Address, end: Address, last: Address)
    requires pool.network.Some? && from <= end
    requires exists first :: first in c.excluded && first <= from <= end == c.excluded[first]
    ensures LowestAllowed(c, pool, used, from, last) == LowestAllowed(c, pool, used, end + 1, last)
    decreases end - from
  {
    var first :| first in c.excluded && first <= from <= end == c.excluded[first];
    assert Excluded(c, from);
    if from < end {
      SkipExcluded(c, pool, used, from + 1, end, last);
    }
  }
}
