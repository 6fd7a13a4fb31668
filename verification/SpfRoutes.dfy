/**
 Intra-area routes from the labels of the search: every reachable stub link and transit
 network offers a route to its prefix, and the preferred offer of each prefix is installed.
 */
module SpfRoutes {
  import opened Prelude
  import opened Spf

  const INFINITE_METRIC: nat := 0x00FF_FFFF

  /** A prefix normalised to its network address. */
  datatype Prefix = Prefix(address: nat, length: nat)

  datatype Source = IntraArea | InterArea | External1 | External2

  datatype Route = Route(prefix: Prefix, metric: nat, internalCost: nat, firstHop: Id, origin: Id, source: Source)

  /** The contiguous mask of a prefix length. */
  function MaskOf(length: nat): nat
    requires length <= 32
  {
    SatSub(0x1_0000_0000, Pow2(32 - length))
  }

  /** The length of a contiguous mask, by trying each length. */
  function MaskLength(mask: nat, length: nat): (r: Option<nat>)
    requires length <= 32
    ensures r.Some? ==> length <= r.value <= 32 && MaskOf(r.value) == mask
    decreases 32 - length
  {
    if MaskOf(length) == mask then Some(length)
    else if length == 32 then None
    else MaskLength(mask, length + 1)
  }

  lemma {:induction false} Pow2Grows(a: nat, b: nat)
    requires a < b
    ensures Pow2(a) < Pow2(b)
    decreases b
  {
    if a < b - 1 {
      Pow2Grows(a, b - 1);
    }
  }

  lemma {:induction false} Pow2Bounds(n: nat, top: nat)
    requires n <= top
    ensures Pow2(n) <= Pow2(top)
  {
    if n < top {
      Pow2Grows(n, top);
    }
  }

  lemma FourMore(n: nat)
    ensures Pow2(n + 4) == 16 * Pow2(n)
  {
    assert Pow2(n + 2) == 2 * Pow2(n + 1);
    assert Pow2(n + 3) == 2 * Pow2(n + 2);
  }

  lemma Pow2Fits(n: nat)
    requires n <= 32
    ensures Pow2(n) <= 0x1_0000_0000
  {
    Pow2Bounds(n, 32);
    FourMore(0);
    FourMore(4);
    FourMore(8);
    FourMore(12);
    FourMore(16);
    FourMore(20);
    FourMore(24);
    FourMore(28);
  }

  lemma MasksDiffer(a: nat, b: nat)
    requires a < b <= 32
    ensures MaskOf(a) != MaskOf(b)
  {
    Pow2Grows(32 - b, 32 - a);
    Pow2Fits(32 - a);
  }

  lemma {:induction false} MaskLengthFinds(mask: nat, length: nat, from: nat)
    requires from <= length <= 32 && mask == MaskOf(length)
    ensures MaskLength(mask, from) == Some(length)
    decreases 32 - from
  {
    if from < length {
      MasksDiffer(from, length);
      MaskLengthFinds(mask, length, from + 1);
    }
  }

  /** Exactly the contiguous masks have a length, and it is theirs. */
  lemma MaskLengthExactly(mask: nat, length: nat)
    ensures MaskLength(mask, 0) == Some(length) <==> length <= 32 && MaskOf(length) == mask
  {
    if length <= 32 && MaskOf(length) == mask {
      MaskLengthFinds(mask, length, 0);
    }
  }

  /** Clear the host bits below `width`, a power of two. */
  function ClearHost(address: nat, width: nat): nat
    requires width >= 1
  {
    address / width * width
  }

  function PrefixOf(address: nat, mask: nat): Option<Prefix> {
    var length := MaskLength(mask, 0);
    if length.None? then None
    else Some(Prefix(ClearHost(address, Pow2(32 - length.value)), length.value))
  }

  /** The network address is the multiple of the prefix width at or just below the address. */
  lemma ClearHostRoundsDown(address: nat, width: nat)
    requires width >= 1
    ensures ClearHost(address, width) <= address < ClearHost(address, width) + width
    ensures exists k: nat :: ClearHost(address, width) == k * width
  {
  }

  function Rank(s: Source): nat {
    match s
    case IntraArea => 0
    case InterArea => 1
    case External1 => 2
    case External2 => 3
  }

  /** Path preference: kind, metric, internal cost, then origin and first hop. */
  predicate Preferred(a: Route, b: Route) {
    || Rank(a.source) < Rank(b.source)
    || (Rank(a.source) == Rank(b.source) && a.metric < b.metric)
    || (Rank(a.source) == Rank(b.source) && a.metric == b.metric && a.internalCost < b.internalCost)
    || (Rank(a.source) == Rank(b.source) && a.metric == b.metric && a.internalCost == b.internalCost
        && a.origin < b.origin)
    || (Rank(a.source) == Rank(b.source) && a.metric == b.metric && a.internalCost == b.internalCost
        && a.origin == b.origin
        && a.firstHop < b.firstHop)
  }

  lemma PreferredOrder(a: Route, b: Route, c: Route)
    ensures !Preferred(a, a)
    ensures Preferred(a, b) && Preferred(b, c) ==> Preferred(a, c)
    ensures Preferred(a, c) ==> Preferred(a, b) || Preferred(b, c)
    ensures a.prefix == b.prefix && a != b ==> Preferred(a, b) || Preferred(b, a)
  {
  }

  /** The preference of a route as one number: kind, then four fields of 32 bits. */
  function Weight(r: Route): nat {
    var kind :=
      if r.source.IntraArea? then 0 else if r.source.InterArea? then 1 else if r.source.External1? then 2 else 3;
    (((kind * 0x1_0000_0000 + r.metric) * 0x1_0000_0000 + r.internalCost) * 0x1_0000_0000 + r.origin) * 0x1_0000_0000
    + r.firstHop
  }

  /** The preferred route weighs less: inside the area first, then the cheaper, then the smaller ids. */
  lemma PreferredIsLighter(a: Route, b: Route)
    requires a.metric <= U32_MAX && a.internalCost <= U32_MAX && a.origin <= U32_MAX && a.firstHop <= U32_MAX
    requires b.metric <= U32_MAX && b.internalCost <= U32_MAX && b.origin <= U32_MAX && b.firstHop <= U32_MAX
    ensures Preferred(a, b) <==> Weight(a) < Weight(b)
  {
  }

  // -------------------------------------------------------------------------- candidates

  function HopOrSelf(hop: Option<Id>, self: Id): Id {
    if hop.Some? then hop.value else self
  }

  function StubRoute(self: Id, id: Id, here: Label, link: RouterLink): Option<Route> {
    var prefix := PrefixOf(link.id, link.data);
    if link.kind != Stub || prefix.None? then None
    else Some(Route(prefix.value, SatAdd32(here.cost, link.metric), here.cost, HopOrSelf(here.hop, self), id,
                    IntraArea))
  }

  function TransitRoute(g: Graph, self: Id, id: Id, here: Label): Option<Route> {
    if id !in g.networks then None
    else
      var prefix := PrefixOf(id, g.networks[id].mask);
      if prefix.None? then None
      else Some(Route(prefix.value, here.cost, here.cost, HopOrSelf(here.hop, self), g.networks[id].origin, IntraArea))
  }

  /** The routes offered by one labelled vertex. */
  ghost predicate Offers(g: Graph, self: Id, v: Vertex, here: Label, r: Route) {
    match v
    case Router(id) =>
      id in g.routers && exists i ::
        0 <= i < |g.routers[id].links| && StubRoute(self, id, here, g.routers[id].links[i]) == Some(r)
    case Network(id) => TransitRoute(g, self, id, here) == Some(r)
  }

  ghost predicate Candidate(g: Graph, self: Id, paths: map<Vertex, Label>, done: set<Vertex>, r: Route) {
    exists v :: v in done && v in paths && Offers(g, self, v, paths[v], r)
  }

  // -------------------------------------------------------------------------- installing

  /** `routes` holds, for every prefix offered below the infinite metric, the preferred offer. */
  ghost predicate BestOf(routes: map<Prefix, Route>, offered: iset<Route>) {
    && (forall p :: p in routes ==> routes[p] in offered && routes[p].prefix == p && routes[p].metric < INFINITE_METRIC)
    && (forall r :: r in offered && r.metric < INFINITE_METRIC ==>
        r.prefix in routes && !Preferred(r, routes[r.prefix]))
  }

  method Install(routes: map<Prefix, Route>, route: Route, ghost offered: iset<Route>)
      returns (routes': map<Prefix, Route>)
    requires BestOf(routes, offered)
    ensures BestOf(routes', offered + iset{route})
  {
    routes' := routes;
    if route.metric < INFINITE_METRIC && (route.prefix !in routes || Preferred(route, routes[route.prefix])) {
      routes' := routes[route.prefix := route];
      forall r | r in offered && r.metric < INFINITE_METRIC && r.prefix == route.prefix
        ensures !Preferred(r, route)
      {
        PreferredOrder(r, route, routes[route.prefix]);
      }
    }
    PreferredOrder(route, route, route);
  }

  ghost function OfferedBy(g: Graph, self: Id, paths: map<Vertex, Label>, done: set<Vertex>): iset<Route> {
    iset r | Candidate(g, self, paths, done, r)
  }

  /** The routes offered by the first `n` links of a router. */
  ghost function StubOffers(self: Id, id: Id, here: Label, links: seq<RouterLink>, n: nat): iset<Route>
    requires n <= |links|
  {
    iset r | exists j :: 0 <= j < n && StubRoute(self, id, here, links[j]) == Some(r)
  }

  lemma OneMoreStub(self: Id, id: Id, here: Label, links: seq<RouterLink>, n: nat)
    requires n < |links|
    ensures var r := StubRoute(self, id, here, links[n]);
            StubOffers(self, id, here, links, n + 1)
            == StubOffers(self, id, here, links, n) + (if r.Some? then iset{r.value} else iset{})
  {
  }

  method InstallStubs(g: Graph, self: Id, id: Id, here: Label, routes: map<Prefix, Route>, ghost offered: iset<Route>)
    returns (routes': map<Prefix, Route>)
    requires id in g.routers && BestOf(routes, offered)
    ensures BestOf(routes', offered + iset r | Offers(g, self, Router(id), here, r))
  {
    var links := g.routers[id].links;
    routes' := routes;
    assert offered + StubOffers(self, id, here, links, 0) == offered;
    var i := 0;
    while i < |links|
      invariant 0 <= i <= |links|
      invariant BestOf(routes', offered + StubOffers(self, id, here, links, i))
    {
      var route := StubRoute(self, id, here, links[i]);
      OneMoreStub(self, id, here, links, i);
      ghost var seen := offered + StubOffers(self, id, here, links, i);
      if route.Some? {
        routes' := Install(routes', route.value, seen);
        assert seen + iset{route.value} == offered + StubOffers(self, id, here, links, i + 1);
      } else {
        assert seen == offered + StubOffers(self, id, here, links, i + 1);
      }
      i := i + 1;
    }
    assert StubOffers(self, id, here, links, |links|) == iset r | Offers(g, self, Router(id), here, r);
  }

  /**
   One pass over the labelled vertices, in any order: the result is the preference-minimum of
   all reachable stub and transit candidates of each prefix.
   */
  method IntraAreaRoutes(g: Graph, self: Id, paths: map<Vertex, Label>) returns (routes: map<Prefix, Route>)
    ensures BestOf(routes, OfferedBy(g, self, paths, paths.Keys))
  {
    routes := map[];
    var rest := paths.Keys;
    ghost var seen: iset<Route> := iset{};
    assert OfferedBy(g, self, paths, {}) == iset{};
    while rest != {}
      invariant rest <= paths.Keys
      invariant BestOf(routes, seen) && seen == OfferedBy(g, self, paths, paths.Keys - rest)
      decreases rest
    {
      var v :| v in rest;
      var here := paths[v];
      MoreOffers(g, self, paths, paths.Keys - rest, v);
      assert paths.Keys - (rest - {v}) == (paths.Keys - rest) + {v};
      match v {
        case Router(id) =>
          if id in g.routers {
            routes := InstallStubs(g, self, id, here, routes, seen);
          }
        case Network(id) =>
          var route := TransitRoute(g, self, id, here);
          if route.Some? {
            routes := Install(routes, route.value, seen);
          }
      }
      SameOffers(routes, seen, g, self, v, here);
      seen := seen + iset r | Offers(g, self, v, here, r);
      rest := rest - {v};
    }
  }

  lemma MoreOffers(g: Graph, self: Id, paths: map<Vertex, Label>, done: set<Vertex>, v: Vertex)
    requires v in paths
    ensures OfferedBy(g, self, paths, done + {v}) == OfferedBy(g, self, paths, done)
            + iset r | Offers(g, self, v, paths[v], r)
  {
  }

  /** What the three branches of the pass have in common. */
  lemma SameOffers(routes: map<Prefix, Route>, seen: iset<Route>, g: Graph, self: Id, v: Vertex, here: Label)
    requires match v
             case Router(id) => if id in g.routers then BestOf(routes, seen + iset r | Offers(g, self, v, here, r))
               else BestOf(routes, seen)
             case Network(id) =>
               var t := TransitRoute(g, self, id, here);
               if t.Some? then BestOf(routes, seen + iset{t.value}) else BestOf(routes, seen)
    ensures BestOf(routes, seen + iset r | Offers(g, self, v, here, r))
  {
  }

  // ---------------------------------------------------------------------------- theorems

  /** The routing table is determined by the candidates: no order of processing can change it. */
  lemma BestIsUnique(a: map<Prefix, Route>, b: map<Prefix, Route>, offered: iset<Route>)
    requires BestOf(a, offered) && BestOf(b, offered)
    ensures a == b
  {
  }

  // ----------------------------------------------------------------- the table, by walks

  /** The plain sum of the metrics along a walk. */
  ghost function Length(walk: seq<Edge>): nat {
    if walk == [] then 0 else Length(walk[..|walk| - 1]) + walk[|walk| - 1].metric
  }

  /** What a walk and a metric at its end cost together; 32-bit costs saturate. */
  ghost function Total(walk: seq<Edge>, metric: nat): nat {
    Min(Length(walk) + metric, 0xFFFF_FFFF)
  }

  lemma {:induction false} CostIsTotal(walk: seq<Edge>)
    ensures Cost(walk) == Total(walk, 0)
  {
    if walk != [] {
      CostIsTotal(walk[..|walk| - 1]);
    }
  }

  lemma TotalAdds(walk: seq<Edge>, metric: nat)
    ensures SatAdd32(Cost(walk), metric) == Total(walk, metric)
  {
    CostIsTotal(walk);
  }

  /** The mask is the contiguous one of the prefix, and the address lies in it. */
  ghost predicate Prefixed(address: nat, mask: nat, p: Prefix) {
    && p.length <= 32 && mask == 0x1_0000_0000 - Pow2(32 - p.length)
    && p.address == address - address % Pow2(32 - p.length)
  }

  lemma PrefixHasLength(address: nat, mask: nat, p: Prefix)
    ensures PrefixOf(address, mask) == Some(p) <==>
            MaskLength(mask, 0) == Some(p.length) && p.address == ClearHost(address, Pow2(32 - p.length))
  {
  }

  lemma MaskIs(length: nat)
    requires length <= 32
    ensures MaskOf(length) == 0x1_0000_0000 - Pow2(32 - length)
  {
    Pow2Fits(32 - length);
  }

  lemma LengthHasMask(mask: nat, length: nat, found: Option<nat>)
    requires found == Some(length) <==> length <= 32 && MaskOf(length) == mask
    ensures found == Some(length) <==> length <= 32 && mask == 0x1_0000_0000 - Pow2(32 - length)
  {
    if length <= 32 {
      MaskIs(length);
    }
  }

  lemma PrefixExactly(address: nat, mask: nat, p: Prefix)
    ensures PrefixOf(address, mask) == Some(p) <==> Prefixed(address, mask, p)
  {
    PrefixHasLength(address, mask, p);
    MaskLengthExactly(mask, p.length);
    LengthHasMask(mask, p.length, MaskLength(mask, 0));
    if p.length <= 32 {
      ClearIsDifference(address, Pow2(32 - p.length));
    }
  }

  lemma ClearIsDifference(address: nat, width: nat)
    requires width >= 1
    ensures ClearHost(address, width) == address - address % width
  {
  }

  /** Vertex `v` has prefix `p` at this metric: a stub link of a router, or a transit network itself. */
  ghost predicate HasPrefix(g: Graph, v: Vertex, p: Prefix, metric: nat) {
    match v
    case Router(id) =>
      id in g.routers && exists link :: link in g.routers[id].links && IsStub(link, p, metric)
    case Network(id) =>
      id in g.networks && Prefixed(id, g.networks[id].mask, p) && metric == 0
  }

  ghost predicate IsStub(link: RouterLink, p: Prefix, metric: nat) {
    link.kind == Stub && Prefixed(link.id, link.data, p) && link.metric == metric
  }

  /** The router that stands behind a prefix of `v`. */
  ghost function OriginOf(g: Graph, v: Vertex): Id {
    match v
    case Router(id) => id
    case Network(id) => if id in g.networks then g.networks[id].origin else id
  }

  /** A walk from the root that ends with prefix `p`. */
  ghost predicate Leads(g: Graph, self: Id, walk: seq<Edge>, p: Prefix, metric: nat) {
    Walk(g, Router(self), walk) && HasPrefix(g, End(Router(self), walk), p, metric)
  }

  ghost predicate Cheapest(g: Graph, self: Id, walk: seq<Edge>) {
    && Walk(g, Router(self), walk)
    && forall other :: Walk(g, Router(self), other) && End(Router(self), other) == End(Router(self), walk) ==>
         Total(walk, 0) <= Total(other, 0)
  }

  /** `r` is the route along this walk: its costs, its origin and the first router on the way. */
  ghost predicate Along(g: Graph, self: Id, walk: seq<Edge>, metric: nat, r: Route) {
    && r.metric == Total(walk, metric) && r.internalCost == Total(walk, 0)
    && r.origin == OriginOf(g, End(Router(self), walk)) && r.source == IntraArea
    && exists hop: Option<Id> :: FirstRouter(self, walk, hop) && r.firstHop == if hop.Some? then hop.value else self
  }

  /**
   The routing table in terms of walks alone. A prefix is present exactly when some walk to it
   costs less than infinity; its route runs along a cheapest walk, no walk to the prefix costs
   less, and among those that cost the same none has a smaller internal cost, or the same and a
   smaller origin.
   */
  ghost predicate IsTable(g: Graph, self: Id, routes: map<Prefix, Route>) {
    && (forall p :: p in routes <==>
          exists walk, metric :: Leads(g, self, walk, p, metric) && Total(walk, metric) < 0xFF_FFFF)
    && (forall p :: p in routes ==> RouteIsBest(g, self, p, routes[p]))
  }

  ghost predicate RouteIsBest(g: Graph, self: Id, p: Prefix, r: Route) {
    && r.prefix == p
    && (exists walk, metric ::
          Leads(g, self, walk, p, metric) && Cheapest(g, self, walk) && Along(g, self, walk, metric, r))
    && (forall walk, metric :: Leads(g, self, walk, p, metric) ==> r.metric <= Total(walk, metric))
    && (forall walk, metric :: Leads(g, self, walk, p, metric) && Cheapest(g, self, walk) ==>
          NoBetter(g, self, r, walk, metric))
  }

  ghost predicate NoBetter(g: Graph, self: Id, r: Route, walk: seq<Edge>, metric: nat) {
    Total(walk, metric) == r.metric ==>
      || r.internalCost < Total(walk, 0)
      || (r.internalCost == Total(walk, 0) && r.origin <= OriginOf(g, End(Router(self), walk)))
  }

  /** The walk behind a label is a cheapest one, and the label's hop its first router. */
  lemma LabelIsCheapest(g: Graph, self: Id, paths: map<Vertex, Label>, v: Vertex) returns (walk: seq<Edge>)
    requires Shortest(g, self, paths) && v in paths
    ensures Cheapest(g, self, walk) && End(Router(self), walk) == v
    ensures paths[v].cost == Total(walk, 0) && FirstRouter(self, walk, paths[v].hop)
  {
    walk :| Explains(g, self, v, paths[v], walk);
    HopIsFirstRouter(g, self, walk);
    CostIsTotal(walk);
    forall other | Walk(g, Router(self), other) && End(Router(self), other) == v
      ensures Total(walk, 0) <= Total(other, 0)
    {
      CostIsTotal(other);
    }
  }

  lemma StubLeads(g: Graph, self: Id, id: Id, here: Label, r: Route, walk: seq<Edge>) returns (metric: nat)
    requires Offers(g, self, Router(id), here, r)
    requires Walk(g, Router(self), walk) && End(Router(self), walk) == Router(id)
    requires here.cost == Total(walk, 0) && FirstRouter(self, walk, here.hop)
    ensures Leads(g, self, walk, r.prefix, metric) && Along(g, self, walk, metric, r)
  {
    var links := g.routers[id].links;
    var i :| 0 <= i < |links| && StubRoute(self, id, here, links[i]) == Some(r);
    metric := links[i].metric;
    PrefixExactly(links[i].id, links[i].data, r.prefix);
    assert IsStub(links[i], r.prefix, metric);
    CostIsTotal(walk);
    TotalAdds(walk, metric);
  }

  lemma TransitLeads(g: Graph, self: Id, id: Id, here: Label, r: Route, walk: seq<Edge>)
    requires Offers(g, self, Network(id), here, r)
    requires Walk(g, Router(self), walk) && End(Router(self), walk) == Network(id)
    requires here.cost == Total(walk, 0) && FirstRouter(self, walk, here.hop)
    ensures Leads(g, self, walk, r.prefix, 0) && Along(g, self, walk, 0, r)
  {
    PrefixExactly(id, g.networks[id].mask, r.prefix);
  }

  /** An offer is the route along the label's walk to a vertex that has the prefix. */
  lemma OfferLeads(g: Graph, self: Id, paths: map<Vertex, Label>, r: Route) returns (walk: seq<Edge>, metric: nat)
    requires Shortest(g, self, paths) && r in OfferedBy(g, self, paths, paths.Keys)
    ensures Leads(g, self, walk, r.prefix, metric) && Cheapest(g, self, walk) && Along(g, self, walk, metric, r)
  {
    var v :| v in paths && Offers(g, self, v, paths[v], r);
    walk := LabelIsCheapest(g, self, paths, v);
    match v
    case Router(id) => metric := StubLeads(g, self, id, paths[v], r, walk);
    case Network(id) =>
      metric := 0;
      TransitLeads(g, self, id, paths[v], r, walk);
  }

  /** Every vertex a walk reaches offers each of its prefixes, at the cost of its label. */
  lemma LeadsOffer(g: Graph, self: Id, paths: map<Vertex, Label>, walk: seq<Edge>, p: Prefix, metric: nat)
    returns (r: Route)
    requires Shortest(g, self, paths) && Leads(g, self, walk, p, metric)
    ensures r in OfferedBy(g, self, paths, paths.Keys) && r.prefix == p && r.source == IntraArea
    ensures r.metric <= Total(walk, metric) && r.internalCost <= Total(walk, 0)
    ensures r.origin == OriginOf(g, End(Router(self), walk))
    ensures Cheapest(g, self, walk) ==> r.metric == Total(walk, metric) && r.internalCost == Total(walk, 0)
  {
    var v := End(Router(self), walk);
    CostIsTotal(walk);
    var cheapest := LabelIsCheapest(g, self, paths, v);
    var here := paths[v];
    match v {
      case Router(id) =>
        var links := g.routers[id].links;
        var link :| link in links && IsStub(link, p, metric);
        var i :| 0 <= i < |links| && links[i] == link;
        PrefixExactly(link.id, link.data, p);
        r := Route(p, SatAdd32(here.cost, metric), here.cost, HopOrSelf(here.hop, self), id, IntraArea);
        assert StubRoute(self, id, here, links[i]) == Some(r);
        TotalAdds(cheapest, metric);
      case Network(id) =>
        PrefixExactly(id, g.networks[id].mask, p);
        r := Route(p, here.cost, here.cost, HopOrSelf(here.hop, self), g.networks[id].origin, IntraArea);
    }
    assert Offers(g, self, v, here, r);
  }

  lemma BestIsTableAt(g: Graph, self: Id, paths: map<Vertex, Label>, routes: map<Prefix, Route>, p: Prefix)
    requires Shortest(g, self, paths) && BestOf(routes, OfferedBy(g, self, paths, paths.Keys)) && p in routes
    ensures RouteIsBest(g, self, p, routes[p])
  {
    var r := routes[p];
    var best, at := OfferLeads(g, self, paths, r);
    forall walk, metric | Leads(g, self, walk, p, metric)
      ensures r.metric <= Total(walk, metric)
      ensures Cheapest(g, self, walk) ==> NoBetter(g, self, r, walk, metric)
    {
      var s := LeadsOffer(g, self, paths, walk, p, metric);
      assert s.metric < INFINITE_METRIC ==> !Preferred(s, r);
    }
  }

  /** The preference-minimum of all offers is the table of cheapest walks. */
  lemma BestIsTable(g: Graph, self: Id, paths: map<Vertex, Label>, routes: map<Prefix, Route>)
    requires Shortest(g, self, paths) && BestOf(routes, OfferedBy(g, self, paths, paths.Keys))
    ensures IsTable(g, self, routes)
  {
    forall p
      ensures p in routes <==>
                exists walk, metric :: Leads(g, self, walk, p, metric) && Total(walk, metric) < 0xFF_FFFF
    {
      if p in routes {
        var walk, metric := OfferLeads(g, self, paths, routes[p]);
      }
      if walk, metric :| Leads(g, self, walk, p, metric) && Total(walk, metric) < 0xFF_FFFF {
        var r := LeadsOffer(g, self, paths, walk, p, metric);
      }
    }
    forall p | p in routes ensures RouteIsBest(g, self, p, routes[p]) {
      BestIsTableAt(g, self, paths, routes, p);
    }
  }

  /** From a list of advertisements to routes. */
  method Calculate(self: Id, lsas: seq<Lsa>) returns (paths: map<Vertex, Label>, routes: map<Prefix, Route>)
    ensures Shortest(GraphOf(lsas), self, paths) && Finds(GraphOf(lsas), self, paths)
    ensures LeastHops(GraphOf(lsas), self, paths)
    ensures BestOf(routes, OfferedBy(GraphOf(lsas), self, paths, paths.Keys))
    ensures IsTable(GraphOf(lsas), self, routes)
  {
    var g := GraphOf(lsas);
    paths := ShortestPaths(g, self);
    routes := IntraAreaRoutes(g, self, paths);
    BestIsTable(g, self, paths, routes);
  }

  /** What `Calculate` returns for a list it also returns for any reordering of it, first hops included. */
  lemma ResultsIgnoreOrder(self: Id, lsas: seq<Lsa>, again: seq<Lsa>, a: map<Vertex, Label>, b: map<Vertex, Label>,
                           routesA: map<Prefix, Route>, routesB: map<Prefix, Route>)
    requires Unambiguous(lsas) && multiset(lsas) == multiset(again)
    requires Finds(GraphOf(lsas), self, a) && BestOf(routesA, OfferedBy(GraphOf(lsas), self, a, a.Keys))
    requires Finds(GraphOf(again), self, b) && BestOf(routesB, OfferedBy(GraphOf(again), self, b, b.Keys))
    ensures a == b && routesA == routesB
  {
    GraphIgnoresOrder(lsas, again);
    FindsOne(GraphOf(lsas), self, a, b);
    BestIsUnique(routesA, routesB, OfferedBy(GraphOf(lsas), self, a, a.Keys));
  }
}
