/**
 What a client may rely on between its own messages: its lease, its offer and its quarantined
 addresses stay until their deadlines, and what it is offered is fit to use.
 */
module DhcpLeases {
  import opened Prelude
  import opened DhcpSpec
  import opened DhcpRuns

  /** A sweep removes an offer, a binding or a quarantine exactly when its deadline has passed. */
  lemma SweepExactly(s: Server, now: nat)
    ensures var r := Expire(s, now);
            && (forall m :: m in r.offers <==> m in s.offers && now < s.offers[m].expiresAt)
            && (forall m :: m in r.bindings <==> m in s.bindings && now < s.bindings[m].expiresAt)
            && (forall a :: a in r.conflicts <==> a in s.conflicts && now < s.conflicts[a])
            && (forall m :: m in r.offers ==> r.offers[m] == s.offers[m])
            && (forall m :: m in r.bindings ==> r.bindings[m] == s.bindings[m])
            && (forall a :: a in r.conflicts ==> r.conflicts[a] == s.conflicts[a])
  {
  }

  // ------------------------------------------------------------------------------- leases

  /** The action may change the binding of `mac`: it accepts an offer or declines an address itself. */
  predicate Rebinds(a: Action, mac: Mac) {
    (a.Request? || a.Reject?) && a.mac == mac
  }

  /** Clocks before `until`, and no request or decline by `mac`; its own discoveries are allowed. */
  ghost predicate LeavesAlone(actions: seq<Action>, mac: Mac, until: nat) {
    forall i :: 0 <= i < |actions| ==> actions[i].now < until && !Rebinds(actions[i], mac)
  }

  lemma OfferKeepsBindings(c: Config, s: Server, serverId: Address, mac: Mac, id: PoolId, now: nat)
    requires id in c.pools && c.pools[id].network.Some?
    ensures OfferFrom(c, s, serverId, mac, id, now).server.bindings == s.bindings
  {
  }

  lemma CommitKeepsOtherBindings(c: Config, s: Server, other: Mac, address: Address, serverId: Address, now: nat,
                                 mac: Mac)
    requires mac in s.bindings && now < s.bindings[mac].expiresAt && other != mac
    ensures var r := Commit(c, s, other, address, serverId, now).server;
            mac in r.bindings && r.bindings[mac] == s.bindings[mac]
  {
    SweepExactly(s, now);
  }

  lemma StepKeepsLease(s: Server, a: Action, mac: Mac)
    requires mac in s.bindings && a.now < s.bindings[mac].expiresAt && !Rebinds(a, mac)
    ensures mac in Step(s, a).bindings && Step(s, a).bindings[mac] == s.bindings[mac]
  {
    SweepExactly(s, a.now);
    match a
    case Discover(c, interface, other, subnet, now) =>
      var id := SelectPool(c, other, subnet);
      if interface in c.interfaces && id.Some? {
        OfferKeepsBindings(c, Expire(s, now), c.interfaces[interface], other, id.value, now);
      }
    case Request(c, other, address, server, now) => CommitKeepsOtherBindings(c, s, other, address, server, now, mac);
    case Reject(_, _, _) =>
    case Sweep(_) =>
  }

  /** `mac` holds exactly this binding, and nobody else has its address. */
  ghost predicate Leased(s: Server, mac: Mac, b: Binding) {
    && mac in s.bindings && s.bindings[mac] == b
    && forall other :: other != mac ==>
         (other in s.offers ==> s.offers[other].address != b.address)
         && (other in s.bindings ==> s.bindings[other].address != b.address)
  }

  lemma BindingIsExclusive(s: Server, mac: Mac)
    requires Exclusive(s) && mac in s.bindings
    ensures Leased(s, mac, s.bindings[mac])
  {
    var address := s.bindings[mac].address;
    assert Has(s, mac, address);
    forall other | other != mac
      ensures other in s.offers ==> s.offers[other].address != address
      ensures other in s.bindings ==> s.bindings[other].address != address
    {
      assert !Has(s, other, address);
    }
  }

  lemma {:induction false} BindingStays(s: Server, actions: seq<Action>, mac: Mac)
    requires mac in s.bindings && LeavesAlone(actions, mac, s.bindings[mac].expiresAt)
    ensures var r := Run(s, actions); mac in r.bindings && r.bindings[mac] == s.bindings[mac]
    decreases |actions|
  {
    if actions != [] {
      StepKeepsLease(s, actions[0], mac);
      BindingStays(Step(s, actions[0]), actions[1..], mac);
    }
  }

  /**
   A client keeps exactly its binding through whatever other clients and sweeps do before the
   lease ends, and no other client is offered or bound to its address in that time.
   */
  lemma LeaseHolds(s: Server, actions: seq<Action>, mac: Mac)
    requires Invariant(s) && mac in s.bindings && LeavesAlone(actions, mac, s.bindings[mac].expiresAt)
    ensures Leased(Run(s, actions), mac, s.bindings[mac])
  {
    BindingStays(s, actions, mac);
    RunKeeps(s, actions);
    BindingIsExclusive(Run(s, actions), mac);
  }

  /** An accepted offer is a lease for its whole term, whatever others do. */
  lemma AcceptedLeaseLasts(c: Config, s: Server, mac: Mac, address: Address, serverId: Address, now: nat,
                           actions: seq<Action>)
    requires Invariant(s) && Commit(c, s, mac, address, serverId, now).offer.Some?
    requires var term := Commit(c, s, mac, address, serverId, now).offer.value.leaseSeconds * 1_000_000;
             LeavesAlone(actions, mac, SatAdd64(now, term))
    ensures var taken := Commit(c, s, mac, address, serverId, now);
            var r := Run(taken.server, actions);
            && mac in r.bindings && r.bindings[mac].address == address
            && r.bindings[mac].expiresAt == SatAdd64(now, taken.offer.value.leaseSeconds * 1_000_000)
            && Leased(r, mac, r.bindings[mac])
  {
    CommitKeeps(c, s, mac, address, serverId, now);
    LeaseHolds(Commit(c, s, mac, address, serverId, now).server, actions, mac);
  }

  // ------------------------------------------------------------------------------- offers

  /** The pool's network contains the subnet, and the pool is open to this client. */
  ghost predicate Suits(c: Config, mac: Mac, subnet: Address, id: PoolId) {
    && id in c.pools && c.pools[id].network.Some?
    && c.pools[id].network.value.base <= subnet <= Broadcast(c.pools[id].network.value)
    && (c.pools[id].hardware == Some(mac) || (c.pools[id].hardware.None? && c.pools[id].reserved.None?))
  }

  /** Reservations come before shared pools, then lower numbers first. */
  ghost predicate Before(c: Config, a: PoolId, b: PoolId)
    requires a in c.pools && b in c.pools
  {
    || (c.pools[a].reserved.Some? && c.pools[b].reserved.None?)
    || (c.pools[a].reserved.Some? == c.pools[b].reserved.Some? && a <= b)
  }

  /** The pool is a suitable reservation, or no suitable pool is one; among those it is the lowest. */
  lemma PoolExactly(c: Config, mac: Mac, subnet: Address, id: PoolId)
    requires ValidConfig(c)
    ensures SelectPool(c, mac, subnet) == Some(id) <==>
            && Suits(c, mac, subnet, id)
            && forall other :: Suits(c, mac, subnet, other) ==> Before(c, id, other)
  {
    forall x ensures Eligible(c, mac, subnet, x) <==> Suits(c, mac, subnet, x) {
      if x in c.pools && c.pools[x].network.Some? {
        ContainsIsInterval(c.pools[x].network.value, subnet);
      }
    }
    if Suits(c, mac, subnet, id) && forall other :: Suits(c, mac, subnet, other) ==> Before(c, id, other) {
      assert Chosen(c, mac, subnet, id);
      ChosenIsUnique(c, mac, subnet, SelectPool(c, mac, subnet).value, id);
    }
  }

  /** A host address of the network that nobody else has, is about to have, or must not have. */
  ghost predicate Fit(c: Config, s: Server, mac: Mac, pool: PoolConfig, a: Address)
    requires pool.network.Some?
  {
    && pool.network.value.base < a < Broadcast(pool.network.value)
    && (forall other :: other != mac ==> !Has(s, other, a))
    && a !in s.conflicts && pool.router != Some(a)
    && (forall i :: i in c.interfaces ==> c.interfaces[i] != a)
    && (forall id :: id in c.pools && c.pools[id].hardware != Some(mac) ==> c.pools[id].reserved != Some(a))
    && (forall first :: first in c.excluded ==> !(first <= a <= c.excluded[first]))
  }

  lemma UsedExactly(c: Config, s: Server, mac: Mac, a: Address)
    ensures a in Used(c, s, mac) <==>
            || (exists other :: other != mac && Has(s, other, a))
            || a in s.conflicts
            || (exists i :: i in c.interfaces && c.interfaces[i] == a)
            || (exists id :: id in c.pools && c.pools[id].hardware != Some(mac) && c.pools[id].reserved == Some(a))
  {
    if other :| other != mac && Has(s, other, a) {
      if other in s.offers && s.offers[other].address == a {
        assert a in Used(c, s, mac);
      } else {
        assert a in Used(c, s, mac);
      }
    }
    if m :| m in s.bindings && m != mac && s.bindings[m].address == a {
      assert Has(s, m, a);
    }
    if m :| m in s.offers && m != mac && s.offers[m].address == a {
      assert Has(s, m, a);
    }
    if id :| id in c.pools && c.pools[id].hardware != Some(mac) && c.pools[id].reserved == Some(a) {
      assert c.pools[id].reserved.value == a;
    }
  }

  lemma AllowedIsFit(c: Config, s: Server, mac: Mac, pool: PoolConfig, a: Address)
    requires pool.network.Some? && ValidNetwork(pool.network.value)
    ensures Allowed(c, pool, Used(c, s, mac), a) <==> Fit(c, s, mac, pool, a)
  {
    ContainsIsInterval(pool.network.value, a);
    UsedExactly(c, s, mac, a);
  }

  /** The address a client asks for by having it: its reservation, or else its binding in this pool. */
  ghost function Wanted(s: Server, mac: Mac, pool: PoolConfig): Option<Address> {
    if pool.reserved.Some? then pool.reserved
    else if mac in s.bindings && s.bindings[mac].poolName == pool.name then Some(s.bindings[mac].address)
    else None
  }

  /**
   What a client that holds no offer of its pool is given: its wanted address if fit; without a
   reservation, otherwise the least fit address; nothing only when there is none, when its
   reservation is not fit, or when the tables are full and it has no binding in the pool.
   */
  ghost predicate Answers(c: Config, s: Server, mac: Mac, pool: PoolConfig, r: Option<Address>)
    requires pool.network.Some?
  {
    var wanted := Wanted(s, mac, pool);
    var held := mac in s.bindings && s.bindings[mac].poolName == pool.name;
    if |s.offers| + |s.bindings| >= MAX_BINDINGS && !held then r.None?
    else if wanted.Some? && Fit(c, s, mac, pool, wanted.value) then r == wanted
    else if pool.reserved.Some? then r.None?
    else
      match r
      case None => forall a :: !Fit(c, s, mac, pool, a)
      case Some(x) => Fit(c, s, mac, pool, x) && forall a :: Fit(c, s, mac, pool, a) ==> x <= a
  }

  lemma PickAnswers(c: Config, s: Server, mac: Mac, pool: PoolConfig)
    requires pool.network.Some? && ValidNetwork(pool.network.value)
    requires |s.offers| + |s.bindings| < MAX_BINDINGS || Previous(s, mac, pool).Some?
    ensures Answers(c, s, mac, pool, PickAddress(c, pool, Used(c, s, mac), Previous(s, mac, pool)))
  {
    var used, previous := Used(c, s, mac), Previous(s, mac, pool);
    forall a ensures Allowed(c, pool, used, a) <==> Fit(c, s, mac, pool, a) {
      AllowedIsFit(c, s, mac, pool, a);
    }
    if pool.reserved.None? && (previous.Some? ==> !Allowed(c, pool, used, previous.value)) {
      PickIsLeast(c, pool, used, previous);
    }
  }

  /** The offer a client holds is repeated; a new one answers for its pool and lasts a minute. */
  lemma OfferExactly(c: Config, s: Server, interface: Interface, mac: Mac, subnet: Address, now: nat, id: PoolId)
    requires ValidConfig(c) && interface in c.interfaces && SelectPool(c, mac, subnet) == Some(id)
    ensures var live, pool := Expire(s, now), c.pools[id]; var r := MakeOffer(c, s, interface, mac, subnet, now);
            if mac in live.offers && live.offers[mac].pool == id
            then r == Reply(live, Some(live.offers[mac]))
            else
              && Answers(c, live, mac, pool, if r.offer.Some? then Some(r.offer.value.address) else None)
              && match r.offer
                 case None => r.server == live
                 case Some(o) =>
                   && o == Offer(o.address, pool.network.value.prefixLen, pool.router, c.interfaces[interface],
                                 pool.leaseSeconds, id, SatAdd64(now, 60_000_000))
                   && r.server == live.(offers := live.offers[mac := o])
  {
    PoolExactly(c, mac, subnet, id);
    var live, pool := Expire(s, now), c.pools[id];
    if |live.offers| + |live.bindings| < MAX_BINDINGS || Previous(live, mac, pool).Some? {
      PickAnswers(c, live, mac, pool);
    }
  }

  // -------------------------------------------------------------- accepting and declining

  /** The client accepts this very offer from this server, and it has not run out. */
  ghost predicate Accepts(s: Server, mac: Mac, address: Address, serverId: Address, now: nat) {
    && mac in s.offers && now < s.offers[mac].expiresAt
    && s.offers[mac].address == address && s.offers[mac].server == serverId
  }

  /**
   A request succeeds exactly on the offer it names, while its pool is configured. It uses the
   offer up and touches no other client; a request for anything else only sweeps.
   */
  lemma CommitExactly(c: Config, s: Server, mac: Mac, address: Address, serverId: Address, now: nat)
    ensures var r := Commit(c, s, mac, address, serverId, now);
            && (r.offer.Some? <==> Accepts(s, mac, address, serverId, now) && s.offers[mac].pool in c.pools)
            && (!Accepts(s, mac, address, serverId, now) ==> r.server == Expire(s, now))
            && (Accepts(s, mac, address, serverId, now) ==> mac !in r.server.offers)
            && (r.offer.Some? ==>
                  var until := SatAdd64(now, s.offers[mac].leaseSeconds * 1_000_000);
                  && r.offer.value == s.offers[mac].(expiresAt := until)
                  && mac in r.server.bindings
                  && r.server.bindings[mac] == Binding(address, mac, c.pools[s.offers[mac].pool].name, until))
            && r.server.conflicts == Expire(s, now).conflicts
            && forall m :: m != mac ==>
                 && (m in r.server.offers <==> m in s.offers && now < s.offers[m].expiresAt)
                 && (m in r.server.bindings <==> m in s.bindings && now < s.bindings[m].expiresAt)
  {
    SweepExactly(s, now);
  }

  /** Only what the client holds can be declined; then it holds nothing, and the address rests ten minutes. */
  lemma DeclineExactly(s: Server, mac: Mac, address: Address, now: nat)
    ensures var r := Decline(s, mac, address, now);
            if !Has(s, mac, address) then r == s
            else
              && r.offers == s.offers - {mac} && r.bindings == s.bindings - {mac}
              && (|s.conflicts| < MAX_BINDINGS ==>
                    r.conflicts == s.conflicts[address := SatAdd64(now, 600_000_000)])
              && (|s.conflicts| >= MAX_BINDINGS ==> r.conflicts == s.conflicts)
  {
  }
}
