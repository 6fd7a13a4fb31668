/**
 Shortest paths over router and network advertisements (section 16.1 of RFC 2328): a
 label-correcting search with a priority queue whose stale entries are skipped on removal.
 A label is a cost and a first hop; the cost is exact, the hop is that of one cheapest walk.
 */
module Spf {
  import opened Prelude

  const MAX_AGE: nat := 3600

  type Id = nat

  datatype LinkKind = PointToPoint | Transit | Stub | Virtual

  datatype RouterLink = RouterLink(id: Id, data: nat, kind: LinkKind, metric: nat)

  datatype Body =
    | RouterBody(flags: nat, links: seq<RouterLink>)
    | NetworkBody(mask: nat, members: seq<Id>)
    | OtherBody

  datatype Lsa = Lsa(age: nat, linkStateId: Id, advertisingRouter: Id, body: Body)

  datatype RouterEntry = RouterEntry(flags: nat, links: seq<RouterLink>)
  datatype NetworkEntry = NetworkEntry(mask: nat, members: seq<Id>, origin: Id)

  /** Router advertisements by router, network advertisements by link-state id. */
  datatype Graph = Graph(routers: map<Id, RouterEntry>, networks: map<Id, NetworkEntry>)

  datatype Vertex = Router(id: Id) | Network(id: Id)

  datatype Label = Label(cost: nat, hop: Option<Id>)

  datatype Edge = Edge(source: Vertex, target: Vertex, metric: nat)

  datatype Entry = Entry(cost: nat, vertex: Vertex, hop: Option<Id>)

  // ------------------------------------------------------------------------ the LSA list

  /** A later advertisement of the same router replaces an earlier one. */
  function RouterMap(lsas: seq<Lsa>): map<Id, RouterEntry> {
    if lsas == [] then map[]
    else
      var last := lsas[|lsas| - 1];
      var before := RouterMap(lsas[..|lsas| - 1]);
      if last.age < MAX_AGE && last.body.RouterBody?
      then before[last.advertisingRouter := RouterEntry(last.body.flags, last.body.links)] else before
  }

  function NetworkMap(lsas: seq<Lsa>): map<Id, NetworkEntry> {
    if lsas == [] then map[]
    else
      var last := lsas[|lsas| - 1];
      var before := NetworkMap(lsas[..|lsas| - 1]);
      if last.age < MAX_AGE && last.body.NetworkBody?
      then before[last.linkStateId := NetworkEntry(last.body.mask, last.body.members, last.advertisingRouter)]
        else before
  }

  function GraphOf(lsas: seq<Lsa>): Graph {
    Graph(RouterMap(lsas), NetworkMap(lsas))
  }

  ghost predicate LiveRouter(l: Lsa) { l.age < MAX_AGE && l.body.RouterBody? }
  ghost predicate LiveNetwork(l: Lsa) { l.age < MAX_AGE && l.body.NetworkBody? }

  /** One live router advertisement per router and one live network advertisement per id. */
  ghost predicate Unambiguous(lsas: seq<Lsa>) {
    && (forall a, b | a in lsas && b in lsas && LiveRouter(a) && LiveRouter(b) ::
          a.advertisingRouter == b.advertisingRouter ==> a == b)
    && (forall a, b | a in lsas && b in lsas && LiveNetwork(a) && LiveNetwork(b) ::
          a.linkStateId == b.linkStateId ==> a == b)
  }

  lemma {:induction false} RouterMapHolds(lsas: seq<Lsa>)
    requires Unambiguous(lsas)
    ensures forall id :: id in RouterMap(lsas) ==>
              exists l :: l in lsas && LiveRouter(l) && l.advertisingRouter == id
    ensures forall l :: l in lsas && LiveRouter(l) ==>
              l.advertisingRouter in RouterMap(lsas)
              && RouterMap(lsas)[l.advertisingRouter] == RouterEntry(l.body.flags, l.body.links)
  {
    if lsas != [] {
      var front := lsas[..|lsas| - 1];
      assert lsas == front + [lsas[|lsas| - 1]];
      RouterMapHolds(front);
    }
  }

  lemma {:induction false} NetworkMapHolds(lsas: seq<Lsa>)
    requires Unambiguous(lsas)
    ensures forall id :: id in NetworkMap(lsas) ==>
              exists l :: l in lsas && LiveNetwork(l) && l.linkStateId == id
    ensures forall l :: l in lsas && LiveNetwork(l) ==>
              l.linkStateId in NetworkMap(lsas)
              && NetworkMap(lsas)[l.linkStateId] == NetworkEntry(l.body.mask, l.body.members, l.advertisingRouter)
  {
    if lsas != [] {
      var front := lsas[..|lsas| - 1];
      assert lsas == front + [lsas[|lsas| - 1]];
      NetworkMapHolds(front);
    }
  }

  /** The graph, and so everything computed from it, does not depend on the order of the list. */
  lemma GraphIgnoresOrder(a: seq<Lsa>, b: seq<Lsa>)
    requires Unambiguous(a) && multiset(a) == multiset(b)
    ensures GraphOf(a) == GraphOf(b)
  {
    forall l ensures l in a <==> l in b {
      assert l in multiset(a) <==> l in multiset(b);
    }
    assert Unambiguous(b);
    SameRouters(a, b);
    SameNetworks(a, b);
  }

  lemma SameRouters(a: seq<Lsa>, b: seq<Lsa>)
    requires Unambiguous(a) && Unambiguous(b) && forall l :: l in a <==> l in b
    ensures RouterMap(a) == RouterMap(b)
  {
    RouterMapHolds(a);
    RouterMapHolds(b);
    forall id ensures id in RouterMap(a) <==> id in RouterMap(b) {
    }
    forall id | id in RouterMap(a) ensures RouterMap(a)[id] == RouterMap(b)[id] {
      var l :| l in a && LiveRouter(l) && l.advertisingRouter == id;
      assert l in b;
    }
  }

  lemma SameNetworks(a: seq<Lsa>, b: seq<Lsa>)
    requires Unambiguous(a) && Unambiguous(b) && forall l :: l in a <==> l in b
    ensures NetworkMap(a) == NetworkMap(b)
  {
    NetworkMapHolds(a);
    NetworkMapHolds(b);
    forall id | id in NetworkMap(a) ensures NetworkMap(a)[id] == NetworkMap(b)[id] {
      var l :| l in a && LiveNetwork(l) && l.linkStateId == id;
      assert l in b;
    }
  }

  // -------------------------------------------------------------------------------- edges

  predicate LinksBack(g: Graph, id: Id, kind: LinkKind, target: Id) {
    id in g.routers && exists i :: 0 <= i < |g.routers[id].links|
                         && g.routers[id].links[i].kind == kind && g.routers[id].links[i].id == target
  }

  /** The edge of one router link, if the other end advertises it back. */
  function LinkEdge(g: Graph, id: Id, link: RouterLink): seq<Edge> {
    if link.kind == PointToPoint && LinksBack(g, link.id, PointToPoint, id) then
      [Edge(Router(id), Router(link.id), link.metric)]
    else if link.kind == Transit && link.id in g.networks && id in g.networks[link.id].members then
      [Edge(Router(id), Network(link.id), link.metric)]
    else []
  }

  function MemberEdge(g: Graph, id: Id, member: Id): seq<Edge> {
    if LinksBack(g, member, Transit, id) then [Edge(Network(id), Router(member), 0)] else []
  }

  function LinkEdges(g: Graph, id: Id, links: seq<RouterLink>): seq<Edge> {
    if links == [] then [] else LinkEdge(g, id, links[0]) + LinkEdges(g, id, links[1..])
  }

  function MemberEdges(g: Graph, id: Id, members: seq<Id>): seq<Edge> {
    if members == [] then [] else MemberEdge(g, id, members[0]) + MemberEdges(g, id, members[1..])
  }

  /** Reciprocally advertised edges out of a vertex, in advertisement order. */
  function Edges(g: Graph, v: Vertex): seq<Edge> {
    match v
    case Router(id) => if id in g.routers then LinkEdges(g, id, g.routers[id].links) else []
    case Network(id) => if id in g.networks then MemberEdges(g, id, g.networks[id].members) else []
  }

  ghost function Vertices(g: Graph): set<Vertex> {
    (set id | id in g.routers :: Router(id)) + (set id | id in g.networks :: Network(id))
  }

  /** Both ends advertise the adjacency, and the edge costs what its own end advertises. */
  ghost predicate Advertised(g: Graph, e: Edge) {
    match (e.source, e.target)
    case (Router(id), Router(other)) =>
      HasLink(g, id, PointToPoint, other, e.metric) && exists back :: HasLink(g, other, PointToPoint, id, back)
    case (Router(id), Network(other)) =>
      HasLink(g, id, Transit, other, e.metric) && other in g.networks && id in g.networks[other].members
    case (Network(id), Router(member)) =>
      && e.metric == 0 && id in g.networks && member in g.networks[id].members
      && exists back :: HasLink(g, member, Transit, id, back)
    case (Network(_), Network(_)) => false
  }

  ghost predicate HasLink(g: Graph, id: Id, kind: LinkKind, target: Id, metric: nat) {
    id in g.routers && exists link :: link in g.routers[id].links && Joins(link, kind, target, metric)
  }

  ghost predicate Joins(link: RouterLink, kind: LinkKind, target: Id, metric: nat) {
    link.kind == kind && link.id == target && link.metric == metric
  }

  lemma LinksBackExactly(g: Graph, id: Id, kind: LinkKind, target: Id)
    ensures LinksBack(g, id, kind, target) <==> exists back :: HasLink(g, id, kind, target, back)
  {
    if LinksBack(g, id, kind, target) {
      var i :| 0 <= i < |g.routers[id].links|
               && g.routers[id].links[i].kind == kind && g.routers[id].links[i].id == target;
      assert Joins(g.routers[id].links[i], kind, target, g.routers[id].links[i].metric);
      assert HasLink(g, id, kind, target, g.routers[id].links[i].metric);
    }
  }

  lemma {:induction false} LinkEdgesExactly(g: Graph, id: Id, links: seq<RouterLink>, e: Edge)
    ensures e in LinkEdges(g, id, links) <==> exists link :: link in links && e in LinkEdge(g, id, link)
    decreases |links|
  {
    if links != [] {
      LinkEdgesExactly(g, id, links[1..], e);
      assert forall link :: link in links <==> link == links[0] || link in links[1..];
    }
  }

  lemma {:induction false} MemberEdgesExactly(g: Graph, id: Id, members: seq<Id>, e: Edge)
    ensures e in MemberEdges(g, id, members) <==> exists member :: member in members && e in MemberEdge(g, id, member)
    decreases |members|
  {
    if members != [] {
      MemberEdgesExactly(g, id, members[1..], e);
      assert forall member :: member in members <==> member == members[0] || member in members[1..];
    }
  }

  lemma RouterEdgesExactly(g: Graph, id: Id, e: Edge)
    ensures e in Edges(g, Router(id)) <==> e.source == Router(id) && Advertised(g, e)
  {
    if id in g.routers {
      var links := g.routers[id].links;
      LinkEdgesExactly(g, id, links, e);
      LinksBackExactly(g, e.target.id, PointToPoint, id);
      if e in Edges(g, Router(id)) {
        var link :| link in links && e in LinkEdge(g, id, link);
        assert Joins(link, link.kind, link.id, link.metric);
      }
      if e.source == Router(id) && Advertised(g, e) {
        var kind := if e.target.Router? then PointToPoint else Transit;
        var link :| link in links && Joins(link, kind, e.target.id, e.metric);
        assert e in LinkEdge(g, id, link);
      }
    }
  }

  lemma NetworkEdgesExactly(g: Graph, id: Id, e: Edge)
    ensures e in Edges(g, Network(id)) <==> e.source == Network(id) && Advertised(g, e)
  {
    if id in g.networks {
      var members := g.networks[id].members;
      MemberEdgesExactly(g, id, members, e);
      LinksBackExactly(g, e.target.id, Transit, id);
      if e.source == Network(id) && Advertised(g, e) {
        assert e in MemberEdge(g, id, e.target.id);
      }
    }
  }

  /** The edges out of a vertex are exactly the adjacencies that both ends advertise. */
  lemma EdgesAreReciprocal(g: Graph, v: Vertex, e: Edge)
    ensures e in Edges(g, v) <==> e.source == v && Advertised(g, e)
  {
    match v {
      case Router(id) => RouterEdgesExactly(g, id, e);
      case Network(id) => NetworkEdgesExactly(g, id, e);
    }
  }

  /** Edges start at their vertex, end in the graph, and leave networks only for routers, free of charge. */
  lemma EdgesShape(g: Graph, v: Vertex, e: Edge)
    requires e in Edges(g, v)
    ensures e.source == v && e.target in Vertices(g)
    ensures v.Network? ==> e.target.Router? && e.metric == 0
  {
    EdgesAreReciprocal(g, v, e);
  }

  // ------------------------------------------------------------------------------- walks

  ghost function End(root: Vertex, walk: seq<Edge>): Vertex {
    if walk == [] then root else walk[|walk| - 1].target
  }

  /** A walk from the root over reciprocally advertised edges. */
  ghost predicate Walk(g: Graph, root: Vertex, walk: seq<Edge>) {
    walk == [] ||
    var front := walk[..|walk| - 1];
    Walk(g, root, front) && walk[|walk| - 1] in Edges(g, End(root, front))
  }

  ghost function Cost(walk: seq<Edge>): nat {
    if walk == [] then 0 else SatAdd32(Cost(walk[..|walk| - 1]), walk[|walk| - 1].metric)
  }

  /** The hop of a label is fixed by the first router other than the root. */
  function ExtendHop(hop: Option<Id>, self: Id, next: Vertex): Option<Id> {
    if hop.Some? then hop
    else if next.Router? && next.id != self then Some(next.id)
    else None
  }

  ghost function Hop(self: Id, walk: seq<Edge>): Option<Id> {
    if walk == [] then None else ExtendHop(Hop(self, walk[..|walk| - 1]), self, walk[|walk| - 1].target)
  }

  ghost predicate AvoidsRoot(root: Vertex, walk: seq<Edge>) {
    forall i :: 0 <= i < |walk| ==> walk[i].target != root
  }

  // ------------------------------------------------------------------------------- labels

  predicate HopBelow(a: Option<Id>, b: Option<Id>) {
    (a.None? && b.Some?) || (a.Some? && b.Some? && a.value < b.value)
  }

  predicate Below(a: Label, b: Label) {
    a.cost < b.cost || (a.cost == b.cost && HopBelow(a.hop, b.hop))
  }

  predicate VertexBelow(a: Vertex, b: Vertex) {
    (a.Router? && b.Network?) || (a.Router? == b.Router? && a.id < b.id)
  }

  predicate EntryBelow(a: Entry, b: Entry) {
    || a.cost < b.cost
    || (a.cost == b.cost && VertexBelow(a.vertex, b.vertex))
    || (a.cost == b.cost && a.vertex == b.vertex && HopBelow(a.hop, b.hop))
  }

  lemma EntryOrder(a: Entry, b: Entry, c: Entry)
    ensures !EntryBelow(a, a)
    ensures EntryBelow(a, b) && EntryBelow(b, c) ==> EntryBelow(a, c)
    ensures a != b ==> EntryBelow(a, b) || EntryBelow(b, a)
  {
  }

  /** The priority of an entry as one number: cost, then routers before networks, then id, then hop. */
  function Weight(e: Entry): nat {
    var hop := if e.hop.None? then 0 else e.hop.value + 1;
    ((e.cost * 2 + (if e.vertex.Network? then 1 else 0)) * 0x1_0000_0000 + e.vertex.id) * 0x2_0000_0000 + hop
  }

  lemma LeastIsLightest(a: Entry, b: Entry)
    requires a.vertex.id <= U32_MAX && b.vertex.id <= U32_MAX
    requires (a.hop.Some? ==> a.hop.value <= U32_MAX) && (b.hop.Some? ==> b.hop.value <= U32_MAX)
    ensures EntryBelow(a, b) <==> Weight(a) < Weight(b)
  {
  }

  lemma LeastOf(entries: set<Entry>, e: Entry)
    requires e in entries
    ensures exists m :: m in entries && forall x :: x in entries ==> !EntryBelow(x, m)
    decreases entries
  {
    var rest := entries - {e};
    if x :| x in rest {
      LeastOf(rest, x);
      var r :| r in rest && forall y :: y in rest ==> !EntryBelow(y, r);
      var m := if EntryBelow(e, r) then e else r;
      forall y | y in entries ensures !EntryBelow(y, m) {
        EntryOrder(y, e, r);
        assert y == e || y in rest;
      }
    } else {
      EntryOrder(e, e, e);
      forall y | y in entries ensures y == e {
        assert y != e ==> y in rest;
      }
    }
  }

  lemma LeastEntryExists(heap: multiset<Entry>, e: Entry)
    requires e in heap
    ensures exists m :: m in heap && forall x :: x in heap ==> !EntryBelow(x, m)
  {
    var entries := set x | x in heap;
    LeastOf(entries, e);
    var m :| m in entries && forall x :: x in entries ==> !EntryBelow(x, m);
    assert m in heap && forall x :: x in heap ==> !EntryBelow(x, m);
  }

  ghost function Least(heap: multiset<Entry>): (e: Entry)
    requires heap != multiset{}
    ensures e in heap && forall x :: x in heap ==> !EntryBelow(x, e)
  {
    var some :| some in heap;
    LeastEntryExists(heap, some);
    var e :| e in heap && forall x :: x in heap ==> !EntryBelow(x, e);
    e
  }

  // ------------------------------------------------------------------------------- search

  /** What the search works on: the labels so far and the entries waiting. */
  datatype Progress = Progress(paths: map<Vertex, Label>, heap: multiset<Entry>)

  /** The label that a vertex labelled `here` offers along an edge. */
  function Via(self: Id, here: Label, e: Edge): Label {
    Label(SatAdd32(here.cost, e.metric), ExtendHop(here.hop, self, e.target))
  }

  function RelaxOne(self: Id, here: Label, e: Edge, s: Progress): Progress {
    var candidate := Via(self, here, e);
    if e.target != Router(self) && (e.target !in s.paths || Below(candidate, s.paths[e.target])) then
      Progress(s.paths[e.target := candidate], s.heap + multiset{Entry(candidate.cost, e.target, candidate.hop)})
    else s
  }

  function RelaxEdges(self: Id, here: Label, edges: seq<Edge>, n: nat, s: Progress): Progress
    requires n <= |edges|
  {
    if n == 0 then s else RelaxOne(self, here, edges[n - 1], RelaxEdges(self, here, edges, n - 1, s))
  }

  /** The least entry leaves the heap; unless it is stale, its vertex relaxes its edges. */
  ghost function SearchStep(g: Graph, self: Id, s: Progress): Progress {
    if s.heap == multiset{} then s
    else
      var e := Least(s.heap);
      var rest := Progress(s.paths, s.heap - multiset{e});
      if e.vertex !in s.paths || s.paths[e.vertex] != Label(e.cost, e.hop) then rest
      else RelaxEdges(self, s.paths[e.vertex], Edges(g, e.vertex), |Edges(g, e.vertex)|, rest)
  }

  function Start(self: Id): Progress {
    Progress(map[Router(self) := Label(0, None)], multiset{Entry(0, Router(self), None)})
  }

  ghost predicate StepAt(g: Graph, self: Id, trace: seq<Progress>, i: nat)
    requires i + 1 < |trace|
  {
    trace[i + 1] == SearchStep(g, self, trace[i])
  }

  /** The search from its start, step by step. */
  ghost predicate Searches(g: Graph, self: Id, trace: seq<Progress>) {
    && trace != [] && trace[0] == Start(self)
    && forall i {:trigger StepAt(g, self, trace, i)} :: 0 <= i < |trace| - 1 ==> StepAt(g, self, trace, i)
  }

  /** The search ends with these labels. */
  ghost predicate Finds(g: Graph, self: Id, paths: map<Vertex, Label>) {
    exists trace :: Searches(g, self, trace) && trace[|trace| - 1] == Progress(paths, multiset{})
  }

  lemma TraceGrows(g: Graph, self: Id, trace: seq<Progress>, s: Progress)
    requires Searches(g, self, trace) && s == SearchStep(g, self, trace[|trace| - 1])
    ensures Searches(g, self, trace + [s])
  {
    var longer := trace + [s];
    forall i: nat {:trigger StepAt(g, self, longer, i)} | i < |trace| ensures StepAt(g, self, longer, i) {
      assert i < |trace| - 1 ==> StepAt(g, self, trace, i);
    }
  }

  lemma {:induction false} TracesAgree(g: Graph, self: Id, a: seq<Progress>, b: seq<Progress>, i: nat)
    requires Searches(g, self, a) && Searches(g, self, b) && i < |a| && i < |b|
    ensures a[i] == b[i]
    decreases i
  {
    if i > 0 {
      TracesAgree(g, self, a, b, i - 1);
      assert StepAt(g, self, a, i - 1) && StepAt(g, self, b, i - 1);
    }
  }

  /** Nothing happens once the heap is empty. */
  lemma {:induction false} TraceStops(g: Graph, self: Id, trace: seq<Progress>, i: nat, j: nat)
    requires Searches(g, self, trace) && i <= j < |trace| && trace[i].heap == multiset{}
    ensures trace[j] == trace[i]
    decreases j
  {
    if i < j {
      TraceStops(g, self, trace, i, j - 1);
      assert StepAt(g, self, trace, j - 1);
    }
  }

  lemma ShorterFindsOne(g: Graph, self: Id, a: seq<Progress>, b: seq<Progress>)
    requires Searches(g, self, a) && Searches(g, self, b) && |a| <= |b| && a[|a| - 1].heap == multiset{}
    ensures a[|a| - 1] == b[|b| - 1]
  {
    TracesAgree(g, self, a, b, |a| - 1);
    TraceStops(g, self, b, |a| - 1, |b| - 1);
  }

  /** The graph determines the labels, first hops included. */
  lemma FindsOne(g: Graph, self: Id, a: map<Vertex, Label>, b: map<Vertex, Label>)
    requires Finds(g, self, a) && Finds(g, self, b)
    ensures a == b
  {
    var s :| Searches(g, self, s) && s[|s| - 1] == Progress(a, multiset{});
    var t :| Searches(g, self, t) && t[|t| - 1] == Progress(b, multiset{});
    if |s| <= |t| {
      ShorterFindsOne(g, self, s, t);
    } else {
      ShorterFindsOne(g, self, t, s);
    }
  }

  /** `walk` explains the label `l` of vertex `v`. */
  ghost predicate Explains(g: Graph, self: Id, v: Vertex, l: Label, walk: seq<Edge>) {
    && Walk(g, Router(self), walk) && End(Router(self), walk) == v && AvoidsRoot(Router(self), walk)
    && Cost(walk) == l.cost && Hop(self, walk) == l.hop
  }

  ghost predicate Explained(g: Graph, self: Id, v: Vertex, l: Label) {
    exists walk :: Explains(g, self, v, l, walk)
  }

  /** The label at the target of `e` is no worse than going through `e`. */
  predicate Relaxed(paths: map<Vertex, Label>, self: Id, here: Label, e: Edge) {
    e.target == Router(self) || (e.target in paths && !Below(Via(self, here, e), paths[e.target]))
  }

  ghost predicate AllRelaxed(g: Graph, paths: map<Vertex, Label>, self: Id, v: Vertex)
    requires v in paths
  {
    forall e :: e in Edges(g, v) ==> Relaxed(paths, self, paths[v], e)
  }

  ghost predicate Labelled(g: Graph, self: Id, paths: map<Vertex, Label>) {
    && Router(self) in paths && paths[Router(self)] == Label(0, None)
    && (forall v :: v in paths ==> Explained(g, self, v, paths[v]))
    && (forall v :: v in paths ==> v in Vertices(g) + {Router(self)} && paths[v].cost <= U32_MAX)
    && (forall v :: v in paths && paths[v].hop.Some? ==> paths[v].hop.value in g.routers)
  }

  /** Every labelled vertex waits in the heap under its label or has relaxed its edges. */
  ghost predicate Scheduled(g: Graph, self: Id, paths: map<Vertex, Label>, heap: multiset<Entry>, busy: Option<Vertex>)
  {
    forall v :: v in paths && busy != Some(v) ==>
      Entry(paths[v].cost, v, paths[v].hop) in heap || AllRelaxed(g, paths, self, v)
  }

  /** Vertex and label pairs still better than what has been found: each improvement uses one up. */
  ghost function Improvements(g: Graph, self: Id, paths: map<Vertex, Label>): set<(Vertex, nat, Option<Id>)> {
    var hops := {None} + set id | id in g.routers :: Some(id);
    set v, c, h | v in Vertices(g) + {Router(self)} && 0 <= c <= U32_MAX && h in hops
                  && (v in paths ==> Below(Label(c, h), paths[v])) :: (v, c, h)
  }

  lemma BelowOrder(a: Label, b: Label, c: Label)
    ensures !Below(a, a)
    ensures Below(a, b) && Below(b, c) ==> Below(a, c)
  {
  }

  lemma NoBetterYet(a: Label, b: Label, c: Label)
    requires !Below(a, b) && !Below(b, c)
    ensures !Below(a, c)
  {
  }

  lemma WalkFurther(g: Graph, self: Id, walk: seq<Edge>, e: Edge)
    requires Walk(g, Router(self), walk) && e in Edges(g, End(Router(self), walk))
    ensures Walk(g, Router(self), walk + [e]) && End(Router(self), walk + [e]) == e.target
    ensures Cost(walk + [e]) == SatAdd32(Cost(walk), e.metric)
    ensures Hop(self, walk + [e]) == ExtendHop(Hop(self, walk), self, e.target)
  {
    var longer := walk + [e];
    assert longer[..|longer| - 1] == walk;
  }

  lemma ExplainStep(g: Graph, self: Id, v: Vertex, l: Label, e: Edge)
    requires Explained(g, self, v, l) && e in Edges(g, v) && e.target != Router(self)
    ensures Explained(g, self, e.target, Label(SatAdd32(l.cost, e.metric), ExtendHop(l.hop, self, e.target)))
  {
    var walk :| Explains(g, self, v, l, walk);
    WalkFurther(g, self, walk, e);
    assert Explains(g, self, e.target, Label(SatAdd32(l.cost, e.metric), ExtendHop(l.hop, self, e.target)), walk + [e]);
  }

  lemma KeepsLabels(g: Graph, self: Id, paths: map<Vertex, Label>, t: Vertex, l: Label)
    requires Labelled(g, self, paths) && t != Router(self) && t in Vertices(g)
    requires Explained(g, self, t, l) && l.cost <= U32_MAX && (l.hop.Some? ==> l.hop.value in g.routers)
    ensures Labelled(g, self, paths[t := l])
  {
  }

  /** Improving one label keeps every other vertex scheduled. */
  lemma KeepsSchedule(g: Graph, self: Id, paths: map<Vertex, Label>, heap: multiset<Entry>, v: Vertex, t: Vertex,
                      l: Label)
    requires Scheduled(g, self, paths, heap, Some(v))
    requires t in paths ==> Below(l, paths[t])
    ensures Scheduled(g, self, paths[t := l], heap + multiset{Entry(l.cost, t, l.hop)}, Some(v))
  {
    forall w | w in paths && w != t && v != w && AllRelaxed(g, paths, self, w)
      ensures AllRelaxed(g, paths[t := l], self, w)
    {
      StaysRelaxed(g, self, paths, w, t, l);
    }
  }

  lemma StaysRelaxed(g: Graph, self: Id, paths: map<Vertex, Label>, w: Vertex, t: Vertex, l: Label)
    requires w in paths && w != t && AllRelaxed(g, paths, self, w) && (t in paths ==> Below(l, paths[t]))
    ensures AllRelaxed(g, paths[t := l], self, w)
  {
    forall e | e in Edges(g, w) ensures Relaxed(paths[t := l], self, paths[w], e) {
      assert Relaxed(paths, self, paths[w], e);
      if e.target == t && t in paths {
        BelowOrder(Via(self, paths[w], e), l, paths[t]);
      }
    }
  }

  /** The state while `v`, labelled `here`, relaxes its edges. */
  ghost predicate Busy(g: Graph, self: Id, v: Vertex, here: Label, s: Progress) {
    Labelled(g, self, s.paths) && v in s.paths && s.paths[v] == here && Scheduled(g, self, s.paths, s.heap, Some(v))
  }

  /** `w` has been labelled, or labelled better. */
  ghost predicate Better(s: Progress, r: Progress, w: Vertex) {
    w in r.paths && (w in s.paths ==> Below(r.paths[w], s.paths[w]))
  }

  /** Labels only improve, and nothing changes without an improvement. */
  ghost predicate Improved(s: Progress, r: Progress) {
    && (forall w :: w in s.paths ==> w in r.paths && !Below(s.paths[w], r.paths[w]))
    && (r == s || exists w :: Better(s, r, w))
  }

  lemma ImprovedTrans(s: Progress, t: Progress, r: Progress)
    requires Improved(s, t) && Improved(t, r)
    ensures Improved(s, r)
  {
    forall w | w in s.paths ensures !Below(s.paths[w], r.paths[w]) {
      NoBetterYet(s.paths[w], t.paths[w], r.paths[w]);
    }
    if w :| Better(s, t, w) {
      assert Better(s, r, w);
    } else if w :| Better(t, r, w) {
      assert Better(s, r, w);
    }
  }

  /** An improvement is used up for good. */
  lemma ImprovedShrinks(g: Graph, self: Id, s: Progress, r: Progress)
    requires Improved(s, r) && r != s && Labelled(g, self, r.paths)
    ensures Improvements(g, self, r.paths) < Improvements(g, self, s.paths)
  {
    var after, before := Improvements(g, self, r.paths), Improvements(g, self, s.paths);
    forall t | t in after ensures t in before {
      if t.0 in s.paths {
        NoBetterYet(s.paths[t.0], r.paths[t.0], Label(t.1, t.2));
        BelowOrder(r.paths[t.0], Label(t.1, t.2), s.paths[t.0]);
      }
    }
    var w :| Better(s, r, w);
    var l := r.paths[w];
    assert l.hop.Some? ==> l.hop == Some(l.hop.value);
    BelowOrder(l, l, l);
    assert (w, l.cost, l.hop) in before && (w, l.cost, l.hop) !in after;
  }

  lemma ImproveOne(g: Graph, self: Id, v: Vertex, here: Label, s: Progress, t: Vertex, l: Label)
    requires Busy(g, self, v, here, s) && t != Router(self) && t in Vertices(g) && t != v
    requires Explained(g, self, t, l) && l.cost <= U32_MAX && (l.hop.Some? ==> l.hop.value in g.routers)
    requires t in s.paths ==> Below(l, s.paths[t])
    ensures var r := Progress(s.paths[t := l], s.heap + multiset{Entry(l.cost, t, l.hop)});
            Busy(g, self, v, here, r) && Improved(s, r)
  {
    KeepsLabels(g, self, s.paths, t, l);
    BelowOrder(l, l, l);
    assert Better(s, Progress(s.paths[t := l], s.heap + multiset{Entry(l.cost, t, l.hop)}), t);
    KeepsSchedule(g, self, s.paths, s.heap, v, t, l);
  }

  /** Trying one edge improves the target's label and queues it, or finds it no better. */
  lemma RelaxKeeps(g: Graph, self: Id, v: Vertex, here: Label, e: Edge, s: Progress)
    requires Busy(g, self, v, here, s) && e in Edges(g, v)
    ensures var r := RelaxOne(self, here, e, s);
            Busy(g, self, v, here, r) && Improved(s, r) && Relaxed(r.paths, self, here, e)
  {
    var candidate := Label(SatAdd32(here.cost, e.metric), ExtendHop(here.hop, self, e.target));
    EdgesShape(g, v, e);
    if e.target != Router(self) && (e.target !in s.paths || Below(candidate, s.paths[e.target])) {
      ExplainStep(g, self, v, here, e);
      ImproveOne(g, self, v, here, s, e.target, candidate);
    }
  }

  ghost predicate FirstRelaxed(self: Id, here: Label, edges: seq<Edge>, n: nat, paths: map<Vertex, Label>)
    requires n <= |edges|
  {
    forall j :: 0 <= j < n ==> Relaxed(paths, self, here, edges[j])
  }

  lemma OneMoreRelaxed(g: Graph, self: Id, here: Label, edges: seq<Edge>, n: nat, s: Progress, t: Progress, r: Progress)
    requires n < |edges| && FirstRelaxed(self, here, edges, n, t.paths)
    requires Improved(s, t) && Improved(t, r)
    requires Relaxed(r.paths, self, here, edges[n])
    ensures FirstRelaxed(self, here, edges, n + 1, r.paths) && Improved(s, r)
  {
    forall j | 0 <= j < n ensures Relaxed(r.paths, self, here, edges[j]) {
      if edges[j].target != Router(self) {
        NoBetterYet(Via(self, here, edges[j]), t.paths[edges[j].target], r.paths[edges[j].target]);
      }
    }
    ImprovedTrans(s, t, r);
  }

  /** The first `n` edges of `v` have been relaxed, from `s` on. */
  ghost predicate RelaxedTo(g: Graph, self: Id, v: Vertex, here: Label, n: nat, s: Progress, r: Progress) {
    && n <= |Edges(g, v)| && Busy(g, self, v, here, r) && Improved(s, r)
    && FirstRelaxed(self, here, Edges(g, v), n, r.paths)
  }

  lemma RelaxedToNext(g: Graph, self: Id, v: Vertex, here: Label, n: nat, s: Progress, t: Progress)
    requires RelaxedTo(g, self, v, here, n, s, t) && n < |Edges(g, v)|
    ensures RelaxedTo(g, self, v, here, n + 1, s, RelaxOne(self, here, Edges(g, v)[n], t))
  {
    var edges := Edges(g, v);
    RelaxKeeps(g, self, v, here, edges[n], t);
    OneMoreRelaxed(g, self, here, edges, n, s, t, RelaxOne(self, here, edges[n], t));
  }

  /** What relaxing one more edge keeps, relaxing the first `n` keeps. */
  lemma {:induction false} EdgesInduction(self: Id, here: Label, edges: seq<Edge>, n: nat, s: Progress,
                                          holds: (nat, Progress) -> bool)
    requires n <= |edges| && holds(0, s)
    requires forall k: nat, t :: k < |edges| && holds(k, t) ==> holds(k + 1, RelaxOne(self, here, edges[k], t))
    ensures holds(n, RelaxEdges(self, here, edges, n, s))
    decreases n
  {
    if n > 0 {
      EdgesInduction(self, here, edges, n - 1, s, holds);
    }
  }

  lemma RelaxEdgesKeeps(g: Graph, self: Id, v: Vertex, here: Label, n: nat, s: Progress)
    requires Busy(g, self, v, here, s) && n <= |Edges(g, v)|
    ensures RelaxedTo(g, self, v, here, n, s, RelaxEdges(self, here, Edges(g, v), n, s))
  {
    var edges := Edges(g, v);
    var holds := (k: nat, t: Progress) => RelaxedTo(g, self, v, here, k, s, t);
    forall k: nat, t | k < |edges| && holds(k, t) ensures holds(k + 1, RelaxOne(self, here, edges[k], t)) {
      RelaxedToNext(g, self, v, here, k, s, t);
    }
    EdgesInduction(self, here, edges, n, s, holds);
  }

  /** Relaxing every edge of a vertex keeps the labels explained and leaves every vertex scheduled or done. */
  lemma RelaxAllKeeps(g: Graph, self: Id, v: Vertex, s: Progress)
    requires v in s.paths && Busy(g, self, v, s.paths[v], s)
    ensures var r := RelaxEdges(self, s.paths[v], Edges(g, v), |Edges(g, v)|, s);
            && Labelled(g, self, r.paths) && Scheduled(g, self, r.paths, r.heap, None)
            && (r == s || Improvements(g, self, r.paths) < Improvements(g, self, s.paths))
  {
    var edges, here := Edges(g, v), s.paths[v];
    RelaxEdgesKeeps(g, self, v, here, |edges|, s);
    var r := RelaxEdges(self, here, edges, |edges|, s);
    AllAreRelaxed(g, self, v, r);
    if r != s {
      ImprovedShrinks(g, self, s, r);
    }
  }

  lemma AllAreRelaxed(g: Graph, self: Id, v: Vertex, r: Progress)
    requires v in r.paths && Scheduled(g, self, r.paths, r.heap, Some(v))
    requires FirstRelaxed(self, r.paths[v], Edges(g, v), |Edges(g, v)|, r.paths)
    ensures Scheduled(g, self, r.paths, r.heap, None)
  {
    assert AllRelaxed(g, r.paths, self, v);
  }

  /** Try one edge. */
  method Relax(self: Id, here: Label, e: Edge, paths: map<Vertex, Label>, heap: multiset<Entry>)
    returns (paths': map<Vertex, Label>, heap': multiset<Entry>)
    ensures Progress(paths', heap') == RelaxOne(self, here, e, Progress(paths, heap))
  {
    paths', heap' := paths, heap;
    var distance := SatAdd32(here.cost, e.metric);
    var first := ExtendHop(here.hop, self, e.target);
    if e.target != Router(self) && (e.target !in paths || Below(Label(distance, first), paths[e.target])) {
      paths' := paths[e.target := Label(distance, first)];
      heap' := heap + multiset{Entry(distance, e.target, first)};
    }
  }

  /** Relax every edge out of `v`. */
  method RelaxAll(g: Graph, self: Id, v: Vertex, paths: map<Vertex, Label>, heap: multiset<Entry>)
    returns (paths': map<Vertex, Label>, heap': multiset<Entry>)
    requires v in paths && Busy(g, self, v, paths[v], Progress(paths, heap))
    ensures Progress(paths', heap') == RelaxEdges(self, paths[v], Edges(g, v), |Edges(g, v)|, Progress(paths, heap))
    ensures Labelled(g, self, paths') && Scheduled(g, self, paths', heap', None)
    ensures || (paths' == paths && heap' == heap)
            || Improvements(g, self, paths') < Improvements(g, self, paths)
  {
    paths', heap' := paths, heap;
    var edges := Edges(g, v);
    for i := 0 to |edges|
      invariant Progress(paths', heap') == RelaxEdges(self, paths[v], edges, i, Progress(paths, heap))
    {
      paths', heap' := Relax(self, paths[v], edges[i], paths', heap');
    }
    RelaxAllKeeps(g, self, v, Progress(paths, heap));
  }

  /** The least entry is removed from the heap. */
  method Pop(heap: multiset<Entry>) returns (e: Entry, rest: multiset<Entry>)
    requires heap != multiset{}
    ensures e in heap && rest == heap - multiset{e}
    ensures e == Least(heap)
  {
    ghost var least := Least(heap);
    e :| e in heap && forall x :: x in heap ==> !EntryBelow(x, e);
    EntryOrder(e, least, e);
    rest := heap - multiset{e};
  }

  /** Removing an entry leaves its vertex to be processed, or was stale and changes nothing. */
  lemma Popped(g: Graph, self: Id, paths: map<Vertex, Label>, heap: multiset<Entry>, e: Entry)
    requires Scheduled(g, self, paths, heap, None) && e in heap
    ensures e.vertex in paths && paths[e.vertex] == Label(e.cost, e.hop) ==>
              Scheduled(g, self, paths, heap - multiset{e}, Some(e.vertex))
    ensures !(e.vertex in paths && paths[e.vertex] == Label(e.cost, e.hop)) ==>
              Scheduled(g, self, paths, heap - multiset{e}, None)
  {
  }

  lemma StartIsScheduled(g: Graph, self: Id)
    ensures Labelled(g, self, Start(self).paths) && Scheduled(g, self, Start(self).paths, Start(self).heap, None)
  {
    assert Explains(g, self, Router(self), Label(0, None), []);
  }

  /** Take the least entry; unless it is stale, relax the edges of its vertex. */
  method Advance(g: Graph, self: Id, paths: map<Vertex, Label>, heap: multiset<Entry>, ghost trace: seq<Progress>)
    returns (paths': map<Vertex, Label>, heap': multiset<Entry>)
    requires Labelled(g, self, paths) && Scheduled(g, self, paths, heap, None) && heap != multiset{}
    requires Searches(g, self, trace) && trace[|trace| - 1] == Progress(paths, heap)
    ensures Searches(g, self, trace + [Progress(paths', heap')])
    ensures Labelled(g, self, paths') && Scheduled(g, self, paths', heap', None)
    ensures || (paths' == paths && |heap'| < |heap|)
            || Improvements(g, self, paths') < Improvements(g, self, paths)
  {
    var e, rest := Pop(heap);
    Popped(g, self, paths, heap, e);
    if e.vertex !in paths || paths[e.vertex] != Label(e.cost, e.hop) {
      paths', heap' := paths, rest;
    } else {
      paths', heap' := RelaxAll(g, self, e.vertex, paths, rest);
    }
    TraceGrows(g, self, trace, Progress(paths', heap'));
  }

  ghost predicate Reachable(g: Graph, self: Id, v: Vertex) {
    exists walk :: Walk(g, Router(self), walk) && End(Router(self), walk) == v
  }

  /** Labels for exactly the reachable vertices, each of least cost and attained by a walk. */
  ghost predicate Shortest(g: Graph, self: Id, paths: map<Vertex, Label>) {
    && (forall v :: v in paths <==> Reachable(g, self, v))
    && (forall v :: v in paths ==> Explained(g, self, v, paths[v]))
    && (forall walk :: Walk(g, Router(self), walk) ==>
          End(Router(self), walk) in paths && paths[End(Router(self), walk)].cost <= Cost(walk))
  }

  ghost predicate Settled(g: Graph, self: Id, paths: map<Vertex, Label>) {
    && Labelled(g, self, paths)
    && (forall v :: v in paths ==> AllRelaxed(g, paths, self, v))
  }

  /**
   The hops settle: no edge from a labelled vertex offers its target, at the same cost, no hop
   where it has one, or a smaller one.
   */
  ghost predicate LeastHops(g: Graph, self: Id, paths: map<Vertex, Label>) {
    forall v, e :: v in paths && e in Edges(g, v) && e.target != Router(self) ==>
      e.target in paths && HopIsLeast(self, paths[v], e, paths[e.target])
  }

  predicate HopIsLeast(self: Id, here: Label, e: Edge, there: Label) {
    there.cost == Min(here.cost + e.metric, 0xFFFF_FFFF) && there.hop.Some? ==>
      match (here.hop, e.target)
      case (Some(x), _) => there.hop.value <= x
      case (None, Router(y)) => y == self || there.hop.value <= y
      case (None, Network(_)) => false
  }

  lemma SettledHopsAreLeast(g: Graph, self: Id, paths: map<Vertex, Label>)
    requires Settled(g, self, paths)
    ensures LeastHops(g, self, paths)
  {
    forall v, e | v in paths && e in Edges(g, v) && e.target != Router(self)
      ensures e.target in paths && HopIsLeast(self, paths[v], e, paths[e.target])
    {
      assert Relaxed(paths, self, paths[v], e);
    }
  }

  lemma {:induction false} WalkCovered(g: Graph, self: Id, paths: map<Vertex, Label>, walk: seq<Edge>)
    requires Settled(g, self, paths) && Walk(g, Router(self), walk)
    ensures End(Router(self), walk) in paths && paths[End(Router(self), walk)].cost <= Cost(walk)
  {
    if walk != [] {
      var front, e := walk[..|walk| - 1], walk[|walk| - 1];
      WalkCovered(g, self, paths, front);
      assert Relaxed(paths, self, paths[End(Router(self), front)], e);
    }
  }

  lemma WalksAreCovered(g: Graph, self: Id, paths: map<Vertex, Label>)
    requires Settled(g, self, paths)
    ensures Shortest(g, self, paths)
  {
    forall walk | Walk(g, Router(self), walk)
      ensures End(Router(self), walk) in paths && paths[End(Router(self), walk)].cost <= Cost(walk)
    {
      WalkCovered(g, self, paths, walk);
    }
    forall v | v in paths ensures Reachable(g, self, v) {
      var walk :| Explains(g, self, v, paths[v], walk);
    }
  }

  /**
   The search. Labels are exactly the vertices some walk reaches; each cost is the least
   saturating cost of any walk, and is attained, with the label's hop, by a walk that never
   returns to the root; and no edge offers an equally cheap label with a smaller hop.
   */
  method ShortestPaths(g: Graph, self: Id) returns (paths: map<Vertex, Label>)
    ensures Shortest(g, self, paths) && LeastHops(g, self, paths) && Finds(g, self, paths)
  {
    paths := map[Router(self) := Label(0, None)];
    var heap := multiset{Entry(0, Router(self), None)};
    StartIsScheduled(g, self);
    ghost var trace := [Start(self)];
    while heap != multiset{}
      invariant Labelled(g, self, paths)
      invariant Scheduled(g, self, paths, heap, None)
      invariant Searches(g, self, trace) && trace[|trace| - 1] == Progress(paths, heap)
      decreases Improvements(g, self, paths), |heap|
    {
      paths, heap := Advance(g, self, paths, heap, trace);
      trace := trace + [Progress(paths, heap)];
    }
    WalksAreCovered(g, self, paths);
    SettledHopsAreLeast(g, self, paths);
  }

  // --------------------------------------------------------------------- order of removal

  /** Everything that waits costs at least `c`. */
  ghost predicate WaitsFrom(s: Progress, c: nat) {
    forall x :: x in s.heap ==> c <= x.cost <= U32_MAX
  }

  lemma {:induction false} RelaxingWaits(self: Id, here: Label, edges: seq<Edge>, n: nat, s: Progress)
    requires n <= |edges| && WaitsFrom(s, here.cost) && here.cost <= U32_MAX
    ensures WaitsFrom(RelaxEdges(self, here, edges, n, s), here.cost)
    decreases n
  {
    if n > 0 {
      RelaxingWaits(self, here, edges, n - 1, s);
    }
  }

  lemma StepWaits(g: Graph, self: Id, s: Progress)
    requires s.heap != multiset{} && WaitsFrom(s, 0)
    ensures WaitsFrom(SearchStep(g, self, s), Least(s.heap).cost)
  {
    var e := Least(s.heap);
    forall x | x in s.heap ensures e.cost <= x.cost {
      EntryOrder(x, e, x);
    }
    var rest := Progress(s.paths, s.heap - multiset{e});
    if e.vertex in s.paths && s.paths[e.vertex] == Label(e.cost, e.hop) {
      RelaxingWaits(self, s.paths[e.vertex], Edges(g, e.vertex), |Edges(g, e.vertex)|, rest);
    }
  }

  lemma {:induction false} WaitsAlong(g: Graph, self: Id, trace: seq<Progress>, i: nat, c: nat, j: nat)
    requires Searches(g, self, trace) && i <= j < |trace| && WaitsFrom(trace[i], c)
    ensures WaitsFrom(trace[j], c)
    decreases j
  {
    if i < j {
      WaitsAlong(g, self, trace, i, c, j - 1);
      assert StepAt(g, self, trace, j - 1);
      if trace[j - 1].heap != multiset{} {
        StepWaits(g, self, trace[j - 1]);
      }
    }
  }

  /** Entries leave the heap in the order of their costs, stale ones included. */
  lemma RemovedByCost(g: Graph, self: Id, trace: seq<Progress>, i: nat, j: nat)
    requires Searches(g, self, trace) && i <= j < |trace|
    requires trace[i].heap != multiset{} && trace[j].heap != multiset{}
    ensures Least(trace[i].heap).cost <= Least(trace[j].heap).cost
  {
    WaitsAlong(g, self, trace, 0, 0, i);
    if i < j {
      assert StepAt(g, self, trace, i);
      StepWaits(g, self, trace[i]);
      WaitsAlong(g, self, trace, i + 1, Least(trace[i].heap).cost, j);
    }
  }

  // -------------------------------------------------------------------------- first hops

  /** The first router after the root on `walk`, reached directly or across one attached network. */
  ghost predicate FirstRouter(self: Id, walk: seq<Edge>, hop: Option<Id>) {
    match hop
    case None => walk == [] || (|walk| == 1 && walk[0].target.Network?)
    case Some(id) =>
      id != self && |walk| >= 1 &&
      if walk[0].target.Router? then walk[0].target == Router(id)
      else |walk| >= 2 && walk[1].target == Router(id)
  }

  /** A walk that avoids the root has as hop its first router; only an attached network has none. */
  lemma {:induction false} HopIsFirstRouter(g: Graph, self: Id, walk: seq<Edge>)
    requires Walk(g, Router(self), walk) && AvoidsRoot(Router(self), walk)
    ensures FirstRouter(self, walk, Hop(self, walk))
  {
    if walk != [] {
      var front, e := walk[..|walk| - 1], walk[|walk| - 1];
      assert AvoidsRoot(Router(self), front);
      HopIsFirstRouter(g, self, front);
      EdgesShape(g, End(Router(self), front), e);
      if front != [] {
        assert front[0] == walk[0];
      }
    }
  }

  /**
   Every first hop is the first router after the root on a cheapest walk; the root and its
   attached networks, reached without crossing a router, are the only vertices without one.
   */
  lemma FirstHopsLeadTheWay(g: Graph, self: Id, paths: map<Vertex, Label>, v: Vertex)
    requires v in paths && Shortest(g, self, paths)
    ensures exists walk :: Walk(g, Router(self), walk) && End(Router(self), walk) == v
              && (forall other :: Walk(g, Router(self), other) && End(Router(self), other) == v ==>
                  Cost(walk) <= Cost(other))
              && FirstRouter(self, walk, paths[v].hop)
    ensures paths[v].hop.None? ==> v == Router(self) || v.Network?
  {
    var walk :| Explains(g, self, v, paths[v], walk);
    HopIsFirstRouter(g, self, walk);
  }
}
