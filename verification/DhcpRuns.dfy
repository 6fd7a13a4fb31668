/** What the allocator guarantees over whole runs, even while its configuration changes. */
module DhcpRuns {
  import opened Prelude
  import opened DhcpSpec

  // --------------------------------------------------------------- the offered address

  /** The search result is the least allowed host address, and None only when there is none. */
  lemma {:induction false} LowestIsLeast(c: Config, pool: PoolConfig, used: set<Address>, from: Address, last: Address)
    requires pool.network.Some?
    ensures var r := LowestAllowed(c, pool, used, from, last);
            && (forall a :: from <= a <= last && (r.Some? ==> a < r.value) ==> !Allowed(c, pool, used, a))
            && (r.Some? ==> from <= r.value <= last && Allowed(c, pool, used, r.value))
    decreases last + 1 - from
  {
    if from <= last && !Allowed(c, pool, used, from) {
      LowestIsLeast(c, pool, used, from + 1, last);
    }
  }

  /** Every allowed address is a host address of the network. */
  lemma AllowedIsHost(c: Config, pool: PoolConfig, used: set<Address>, a: Address)
    requires pool.network.Some? && ValidNetwork(pool.network.value) && Allowed(c, pool, used, a)
    ensures FirstHost(pool.network.value) <= a <= LastHost(pool.network.value)
  {
  }

  ghost predicate LeastAllowed(c: Config, pool: PoolConfig, used: set<Address>, r: Option<Address>)
    requires pool.network.Some?
  {
    match r
    case None => forall a :: !Allowed(c, pool, used, a)
    case Some(x) => Allowed(c, pool, used, x) && forall a :: Allowed(c, pool, used, a) ==> x <= a
  }

  lemma PickIsLeast(c: Config, pool: PoolConfig, used: set<Address>, previous: Option<Address>)
    requires pool.network.Some? && ValidNetwork(pool.network.value) && pool.reserved.None?
    requires previous.Some? ==> !Allowed(c, pool, used, previous.value)
    ensures LeastAllowed(c, pool, used, PickAddress(c, pool, used, previous))
  {
    var network := pool.network.value;
    var r := LowestAllowed(c, pool, used, FirstHost(network), LastHost(network));
    LowestIsLeast(c, pool, used, FirstHost(network), LastHost(network));
    forall a | Allowed(c, pool, used, a) ensures r.Some? && r.value <= a {
      AllowedIsHost(c, pool, used, a);
    }
  }

  /**
   A client without an offer, a reservation or a usable previous address is offered the least
   allowed address of its pool, and nothing only when the pool has no allowed address.
   */
  lemma FreshOfferIsLowest(c: Config, s: Server, serverId: Address, mac: Mac, id: PoolId, now: nat)
    requires ValidConfig(c) && id in c.pools && c.pools[id].network.Some? && c.pools[id].reserved.None?
    requires mac in s.offers ==> s.offers[mac].pool != id
    requires |s.offers| + |s.bindings| < MAX_BINDINGS
    requires Previous(s, mac, c.pools[id]).Some?
             ==> !Allowed(c, c.pools[id], Used(c, s, mac), Previous(s, mac, c.pools[id]).value)
    ensures var r := OfferFrom(c, s, serverId, mac, id, now).offer;
            LeastAllowed(c, c.pools[id], Used(c, s, mac), if r.Some? then Some(r.value.address) else None)
  {
    PickIsLeast(c, c.pools[id], Used(c, s, mac), Previous(s, mac, c.pools[id]));
    OfferUsesPick(c, s, serverId, mac, id, now);
  }

  lemma OfferUsesPick(c: Config, s: Server, serverId: Address, mac: Mac, id: PoolId, now: nat)
    requires id in c.pools && c.pools[id].network.Some?
    requires mac in s.offers ==> s.offers[mac].pool != id
    requires |s.offers| + |s.bindings| < MAX_BINDINGS
    ensures var r := OfferFrom(c, s, serverId, mac, id, now).offer;
            (if r.Some? then Some(r.value.address) else None)
            == PickAddress(c, c.pools[id], Used(c, s, mac), Previous(s, mac, c.pools[id]))
  {
  }

  lemma PickedIsUnused(c: Config, pool: PoolConfig, used: set<Address>, previous: Option<Address>)
    requires pool.network.Some? && PickAddress(c, pool, used, previous).Some?
    ensures PickAddress(c, pool, used, previous).value !in used
  {
    LowestIsLeast(c, pool, used, FirstHost(pool.network.value), LastHost(pool.network.value));
  }

  // -------------------------------------------------------------------------- invariant

  /** `mac` has been offered `a` or is bound to it. */
  predicate Has(s: Server, mac: Mac, a: Address) {
    (mac in s.offers && s.offers[mac].address == a) || (mac in s.bindings && s.bindings[mac].address == a)
  }

  ghost predicate Exclusive(s: Server) {
    forall m, n, a :: m != n && Has(s, m, a) ==> !Has(s, n, a)
  }

  ghost predicate Quarantined(s: Server) {
    forall m, a :: a in s.conflicts ==> !Has(s, m, a)
  }

  ghost predicate Bounded(s: Server) {
    |s.offers.Keys + s.bindings.Keys| <= MAX_BINDINGS && |s.conflicts| <= MAX_BINDINGS
  }

  ghost predicate Invariant(s: Server) {
    Exclusive(s) && Quarantined(s) && Bounded(s)
  }

  lemma SubsetSize<T>(a: set<T>, b: set<T>)
    requires a <= b
    ensures |a| <= |b|
  {
    assert b == a + (b - a);
  }

  /** Giving addresses back keeps the invariant. */
  lemma FewerKeeps(s: Server, r: Server)
    requires Invariant(s)
    requires forall m, a :: Has(r, m, a) ==> Has(s, m, a)
    requires r.conflicts.Keys <= s.conflicts.Keys
    requires r.offers.Keys + r.bindings.Keys <= s.offers.Keys + s.bindings.Keys
    ensures Invariant(r)
  {
    SubsetSize(r.offers.Keys + r.bindings.Keys, s.offers.Keys + s.bindings.Keys);
    SubsetSize(r.conflicts.Keys, s.conflicts.Keys);
  }

  lemma ExpireKeeps(s: Server, now: nat)
    requires Invariant(s)
    ensures Invariant(Expire(s, now))
  {
    FewerKeeps(s, Expire(s, now));
  }

  /** Offering an address nobody else has, and that is not in quarantine. */
  lemma GrantKeeps(s: Server, mac: Mac, offer: Offer)
    requires Invariant(s) && (|s.offers| + |s.bindings| < MAX_BINDINGS || mac in s.bindings)
    requires offer.address !in s.conflicts && forall n :: n != mac ==> !Has(s, n, offer.address)
    ensures Invariant(s.(offers := s.offers[mac := offer]))
  {
    var r := s.(offers := s.offers[mac := offer]);
    forall n, x | Has(r, n, x) ensures Has(s, n, x) || (n == mac && x == offer.address) {
    }
    ServedStaysBounded(s, mac, offer);
  }

  lemma UnusedIsFree(c: Config, s: Server, mac: Mac, a: Address)
    requires a !in Used(c, s, mac)
    ensures a !in s.conflicts && forall n :: n != mac ==> !Has(s, n, a)
  {
  }

  /** An answer repeats the client's offer, offers the picked address, or changes nothing. */
  lemma OfferPicks(c: Config, s: Server, serverId: Address, mac: Mac, id: PoolId, now: nat, used: set<Address>)
    requires id in c.pools && c.pools[id].network.Some? && used == Used(c, s, mac)
    ensures var r := OfferFrom(c, s, serverId, mac, id, now);
            var pick := PickAddress(c, c.pools[id], used, Previous(s, mac, c.pools[id]));
            r.server == s
            || (r.offer.Some? && r.server == s.(offers := s.offers[mac := r.offer.value])
                && (|s.offers| + |s.bindings| < MAX_BINDINGS || mac in s.bindings)
                && pick == Some(r.offer.value.address))
  {
  }

  lemma OfferLands(c: Config, s: Server, serverId: Address, mac: Mac, id: PoolId, now: nat)
    requires id in c.pools && c.pools[id].network.Some?
    ensures var r := OfferFrom(c, s, serverId, mac, id, now);
            r.server == s
            || (r.offer.Some? && r.server == s.(offers := s.offers[mac := r.offer.value])
                && (|s.offers| + |s.bindings| < MAX_BINDINGS || mac in s.bindings)
                && r.offer.value.address !in Used(c, s, mac))
  {
    var pool, used := c.pools[id], Used(c, s, mac);
    OfferPicks(c, s, serverId, mac, id, now, used);
    if PickAddress(c, pool, used, Previous(s, mac, pool)).Some? {
      PickedIsUnused(c, pool, used, Previous(s, mac, pool));
    }
  }

  lemma OfferKeeps(c: Config, s: Server, serverId: Address, mac: Mac, id: PoolId, now: nat)
    requires Invariant(s) && id in c.pools && c.pools[id].network.Some?
    ensures Invariant(OfferFrom(c, s, serverId, mac, id, now).server)
  {
    OfferLands(c, s, serverId, mac, id, now);
    OfferLandsKeeps(c, s, mac, OfferFrom(c, s, serverId, mac, id, now));
  }

  lemma OfferLandsKeeps(c: Config, s: Server, mac: Mac, r: Reply)
    requires Invariant(s)
    requires r.server == s
             || (r.offer.Some? && r.server == s.(offers := s.offers[mac := r.offer.value])
                 && (|s.offers| + |s.bindings| < MAX_BINDINGS || mac in s.bindings)
                 && r.offer.value.address !in Used(c, s, mac))
    ensures Invariant(r.server)
  {
    if r.server != s {
      UnusedIsFree(c, s, mac, r.offer.value.address);
      GrantKeeps(s, mac, r.offer.value);
    }
  }

  lemma ServedStaysBounded(s: Server, mac: Mac, offer: Offer)
    requires Bounded(s) && (|s.offers| + |s.bindings| < MAX_BINDINGS || mac in s.bindings)
    ensures Bounded(s.(offers := s.offers[mac := offer]))
  {
    var served := s.offers.Keys + s.bindings.Keys;
    assert s.offers[mac := offer].Keys + s.bindings.Keys == served + {mac};
    if mac in s.bindings {
      assert served + {mac} == served;
    } else {
      assert |served| <= |s.offers.Keys| + |s.bindings.Keys|;
    }
  }

  lemma CommitKeeps(c: Config, s: Server, mac: Mac, address: Address, serverId: Address, now: nat)
    requires Invariant(s)
    ensures Invariant(Commit(c, s, mac, address, serverId, now).server)
  {
    ExpireKeeps(s, now);
    CommitGivesNothingNew(c, s, mac, address, serverId, now);
    FewerKeeps(Expire(s, now), Commit(c, s, mac, address, serverId, now).server);
  }

  lemma CommitGivesNothingNew(c: Config, s: Server, mac: Mac, address: Address, serverId: Address, now: nat)
    ensures var live, r := Expire(s, now), Commit(c, s, mac, address, serverId, now).server;
            && (forall m, a :: Has(r, m, a) ==> Has(live, m, a))
            && r.conflicts == live.conflicts
            && r.offers.Keys + r.bindings.Keys <= live.offers.Keys + live.bindings.Keys
  {
  }

  lemma DeclineKeeps(s: Server, mac: Mac, address: Address, now: nat)
    requires Invariant(s)
    ensures Invariant(Decline(s, mac, address, now))
  {
    var r := Decline(s, mac, address, now);
    forall m, a | Has(r, m, a) ensures Has(s, m, a) {
    }
    if Has(s, mac, address) {
      forall m ensures !Has(r, m, address) {
        assert m != mac ==> !Has(s, m, address);
      }
      assert r.conflicts.Keys <= s.conflicts.Keys + {address};
      SubsetSize(r.offers.Keys + r.bindings.Keys, s.offers.Keys + s.bindings.Keys);
    }
  }

  // ------------------------------------------------------------------------- whole runs

  /** Each operation runs under whatever configuration is then in force. */
  datatype Action =
    | Discover(c: Config, interface: Interface, mac: Mac, subnet: Address, now: nat)
    | Request(c: Config, mac: Mac, address: Address, server: Address, now: nat)
    | Reject(mac: Mac, address: Address, now: nat)
    | Sweep(now: nat)

  ghost function Step(s: Server, a: Action): Server {
    match a
    case Discover(c, interface, mac, subnet, now) => MakeOffer(c, s, interface, mac, subnet, now).server
    case Request(c, mac, address, server, now) => Commit(c, s, mac, address, server, now).server
    case Reject(mac, address, now) => Decline(s, mac, address, now)
    case Sweep(now) => Expire(s, now)
  }

  ghost function Run(s: Server, actions: seq<Action>): Server
    decreases |actions|
  {
    if actions == [] then s else Run(Step(s, actions[0]), actions[1..])
  }

  lemma DiscoverKeeps(c: Config, s: Server, interface: Interface, mac: Mac, subnet: Address, now: nat)
    requires Invariant(s)
    ensures Invariant(MakeOffer(c, s, interface, mac, subnet, now).server)
  {
    ExpireKeeps(s, now);
    var id := SelectPool(c, mac, subnet);
    if interface in c.interfaces && id.Some? {
      OfferKeeps(c, Expire(s, now), c.interfaces[interface], mac, id.value, now);
    }
  }

  lemma StepKeeps(s: Server, a: Action)
    requires Invariant(s)
    ensures Invariant(Step(s, a))
  {
    match a
    case Discover(c, interface, mac, subnet, now) => DiscoverKeeps(c, s, interface, mac, subnet, now);
    case Request(c, mac, address, server, now) => CommitKeeps(c, s, mac, address, server, now);
    case Reject(mac, address, now) => DeclineKeeps(s, mac, address, now);
    case Sweep(now) => ExpireKeeps(s, now);
  }

  lemma {:induction false} RunKeeps(s: Server, actions: seq<Action>)
    requires Invariant(s)
    ensures Invariant(Run(s, actions))
    decreases |actions|
  {
    if actions != [] {
      StepKeeps(s, actions[0]);
      RunKeeps(Step(s, actions[0]), actions[1..]);
    }
  }

  /** Over every run two clients never share an offered or bound address, and the tables stay bounded. */
  lemma AddressesAreExclusive(actions: seq<Action>, m: Mac, n: Mac, a: Address)
    requires m != n
    ensures var s := Run(EMPTY, actions);
            && !(Has(s, m, a) && Has(s, n, a))
            && |s.offers| <= MAX_BINDINGS && |s.bindings| <= MAX_BINDINGS && |s.conflicts| <= MAX_BINDINGS
  {
    RunKeeps(EMPTY, actions);
    var s := Run(EMPTY, actions);
    SubsetSize(s.offers.Keys, s.offers.Keys + s.bindings.Keys);
    SubsetSize(s.bindings.Keys, s.offers.Keys + s.bindings.Keys);
  }

  // ------------------------------------------------------------------------- quarantine

  ghost predicate Blocked(s: Server, a: Address, until: nat) {
    a in s.conflicts && s.conflicts[a] >= until
  }

  /** Actions whose clock lies in `[from, until)`. */
  ghost predicate Between(actions: seq<Action>, from: nat, until: nat) {
    forall i :: 0 <= i < |actions| ==> from <= actions[i].now < until
  }

  lemma ExpireBlocks(s: Server, now: nat, address: Address, until: nat)
    requires Blocked(s, address, until) && now < until
    ensures Blocked(Expire(s, now), address, until)
  {
  }

  /** Offers and commits leave the quarantine alone. */
  lemma ConflictsStay(c: Config, s: Server, serverId: Address, mac: Mac, id: PoolId, address: Address, now: nat)
    ensures id in c.pools && c.pools[id].network.Some?
            ==> OfferFrom(c, s, serverId, mac, id, now).server.conflicts == s.conflicts
    ensures Commit(c, s, mac, address, serverId, now).server.conflicts == Expire(s, now).conflicts
  {
  }

  lemma StepBlocks(s: Server, a: Action, address: Address, until: nat)
    requires Blocked(s, address, until) && a.now < until && until <= SatAdd64(a.now, QUARANTINE_US)
    ensures Blocked(Step(s, a), address, until)
  {
    ExpireBlocks(s, a.now, address, until);
    match a
    case Discover(c, interface, mac, subnet, now) =>
      var id := SelectPool(c, mac, subnet);
      if interface in c.interfaces && id.Some? {
        ConflictsStay(c, Expire(s, now), c.interfaces[interface], mac, id.value, 0, now);
      }
    case Request(c, mac, offered, server, now) =>
      ConflictsStay(c, s, server, mac, 0, offered, now);
    case Reject(_, _, _) =>
    case Sweep(_) =>
  }

  lemma {:induction false} RunBlocks(s: Server, actions: seq<Action>, address: Address, from: nat)
    requires Blocked(s, address, SatAdd64(from, QUARANTINE_US)) && Between(actions, from, SatAdd64(from, QUARANTINE_US))
    ensures Blocked(Run(s, actions), address, SatAdd64(from, QUARANTINE_US))
    decreases |actions|
  {
    if actions != [] {
      StepBlocks(s, actions[0], address, SatAdd64(from, QUARANTINE_US));
      RunBlocks(Step(s, actions[0]), actions[1..], address, from);
    }
  }

  /** A declined address is neither offered nor bound for ten minutes, if the quarantine had room. */
  lemma DeclinedStaysOut(s: Server, mac: Mac, address: Address, from: nat, actions: seq<Action>, m: Mac)
    requires Invariant(s) && Has(s, mac, address) && |s.conflicts| < MAX_BINDINGS
    requires Between(actions, from, SatAdd64(from, QUARANTINE_US))
    ensures !Has(Run(Decline(s, mac, address, from), actions), m, address)
  {
    var r := Decline(s, mac, address, from);
    DeclineKeeps(s, mac, address, from);
    RunKeeps(r, actions);
    RunBlocks(r, actions, address, from);
  }

  // ------------------------------------------------------------- offers can be accepted

  /** The client an action is about. */
  function About(a: Action): Option<Mac> {
    if a.Sweep? then None else Some(a.mac)
  }

  /** `r` still holds the offer made to `mac`. */
  ghost predicate StillOffered(s: Server, r: Server, mac: Mac)
    requires mac in s.offers
  {
    mac in r.offers && r.offers[mac] == s.offers[mac]
  }

  lemma OtherDiscover(c: Config, s: Server, interface: Interface, other: Mac, subnet: Address, now: nat, mac: Mac)
    requires mac in s.offers && now < s.offers[mac].expiresAt && other != mac
    ensures StillOffered(s, MakeOffer(c, s, interface, other, subnet, now).server, mac)
  {
    assert StillOffered(s, Expire(s, now), mac);
    var id := SelectPool(c, other, subnet);
    if interface in c.interfaces && id.Some? {
      OfferTouchesOne(c, Expire(s, now), c.interfaces[interface], other, id.value, now, mac);
    }
  }

  lemma OfferTouchesOne(c: Config, s: Server, serverId: Address, other: Mac, id: PoolId, now: nat, mac: Mac)
    requires id in c.pools && c.pools[id].network.Some? && mac in s.offers && other != mac
    ensures StillOffered(s, OfferFrom(c, s, serverId, other, id, now).server, mac)
  {
  }

  lemma OtherRequest(c: Config, s: Server, other: Mac, address: Address, serverId: Address, now: nat, mac: Mac)
    requires mac in s.offers && now < s.offers[mac].expiresAt && other != mac
    ensures StillOffered(s, Commit(c, s, other, address, serverId, now).server, mac)
  {
  }

  lemma OthersLeaveOffer(s: Server, a: Action, mac: Mac)
    requires mac in s.offers && a.now < s.offers[mac].expiresAt && About(a) != Some(mac)
    ensures StillOffered(s, Step(s, a), mac)
  {
    match a
    case Discover(c, interface, other, subnet, now) => OtherDiscover(c, s, interface, other, subnet, now, mac);
    case Request(c, other, address, server, now) => OtherRequest(c, s, other, address, server, now, mac);
    case Reject(_, _, _) =>
    case Sweep(_) =>
  }

  lemma {:induction false} OthersLeaveOffers(s: Server, actions: seq<Action>, mac: Mac)
    requires mac in s.offers
    requires forall i :: 0 <= i < |actions| ==>
             actions[i].now < s.offers[mac].expiresAt && About(actions[i]) != Some(mac)
    ensures var r := Run(s, actions);
            mac in r.offers && r.offers[mac] == s.offers[mac]
    decreases |actions|
  {
    if actions != [] {
      OthersLeaveOffer(s, actions[0], mac);
      OthersLeaveOffers(Step(s, actions[0]), actions[1..], mac);
    }
  }

  lemma OfferIsRecorded(c: Config, s: Server, interface: Interface, mac: Mac, subnet: Address, now: nat)
    requires MakeOffer(c, s, interface, mac, subnet, now).offer.Some?
    ensures var r := MakeOffer(c, s, interface, mac, subnet, now);
            mac in r.server.offers && r.server.offers[mac] == r.offer.value
            && ((mac in s.offers && r.offer.value == s.offers[mac])
                || r.offer.value.expiresAt == SatAdd64(now, OFFER_US))
            && r.offer.value.pool in c.pools
  {
  }

  /**
   An offer can be accepted until it expires, whatever other clients do in between: the
   commit returns the offered address and binds exactly this client to it.
   */
  lemma OffersCanBeAccepted(c: Config, s: Server, interface: Interface, mac: Mac, subnet: Address, start: nat,
                            actions: seq<Action>, now: nat)
    requires MakeOffer(c, s, interface, mac, subnet, start).offer.Some?
    requires var offer := MakeOffer(c, s, interface, mac, subnet, start).offer.value;
             now < offer.expiresAt
             && forall i :: 0 <= i < |actions| ==> actions[i].now < offer.expiresAt && About(actions[i]) != Some(mac)
    ensures var made := MakeOffer(c, s, interface, mac, subnet, start);
            var offer := made.offer.value;
            var r := Commit(c, Run(made.server, actions), mac, offer.address, offer.server, now);
            && r.offer.Some? && r.offer.value.address == offer.address
            && mac in r.server.bindings && r.server.bindings[mac].address == offer.address && mac !in r.server.offers
            && r.server.bindings[mac].expiresAt == SatAdd64(now, offer.leaseSeconds * 1_000_000)
  {
    OfferIsRecorded(c, s, interface, mac, subnet, start);
    OthersLeaveOffers(MakeOffer(c, s, interface, mac, subnet, start).server, actions, mac);
  }
}
