/**
 The end of the exchange: once both sides have left Exchange, two loss-free rounds of requests
 and updates empty both request lists, so after any run, however lossy, both sides can still
 reach Full.
 */
module OspfLoading {
  import opened Prelude
  import opened OspfLsa
  import opened ExchangeSpec
  import opened OspfRequests
  import opened OspfNetwork
  import opened OspfProgress
  import opened OspfDatabase
  import opened OspfAnswers

  // ------------------------------------------------------------------ one side, any state

  /** A side in Loading has something to ask for. */
  predicate Wants(e: Endpoint) {
    e.state == Loading ==> e.requests != map[]
  }

  lemma {:induction false} AnswersRetransmit(e: Endpoint, keys: seq<Key>, packets: seq<Body>, db: Database, now: nat)
    requires WellKeyed(db)
    ensures AnswerRequests(e, keys, packets, db, now).endpoint.retransmit.Keys <= e.retransmit.Keys + db.Keys
    decreases |keys|
  {
    if keys != [] && keys[0] in db {
      var f := Flood(e, db[keys[0]], now);
      AnswersRetransmit(f.endpoint, keys[1..], packets + (if f.body.Some? then [f.body.value] else []), db, now);
    }
  }

  lemma {:induction false} UpdatesRetransmit(f: Intake, lsas: seq<Lsa>, db: Database, now: nat)
    requires WellKeyed(db)
    ensures TakeUpdates(f, lsas, db, now).endpoint.retransmit.Keys <= f.endpoint.retransmit.Keys + db.Keys
    decreases |lsas|
  {
    if lsas != [] {
      UpdatesRetransmit(TakeUpdate(f, lsas[0], db, now), lsas[1..], db, now);
    }
  }

  lemma {:induction false} AcksRetransmit(e: Endpoint, headers: seq<LsaHeader>)
    ensures TakeAcks(e, headers).retransmit.Keys <= e.retransmit.Keys
    decreases |headers|
  {
    if headers != [] {
      AcksRetransmit(TakeAck(e, headers[0]), headers[1..]);
    }
  }

  /** Only advertisements of the database are ever added to what is retransmitted. */
  lemma ReceiveRetransmits(e: Endpoint, body: Body, db: Database, now: nat)
    requires WellKeyed(db) && e.offset <= |e.summary|
    ensures Receive(e, body, db, now).endpoint.retransmit.Keys <= e.retransmit.Keys + db.Keys
  {
    match body {
      case DatabaseDescription(_, _, _, _, _) => DescriptionKeepsList(e, body, db, now);
      case LinkStateRequest(keys) => AnswersRetransmit(e, keys, [], db, now);
      case LinkStateUpdate(lsas) => UpdatesRetransmit(Intake(e, [], [], []), lsas, db, now);
      case LinkStateAck(headers) => AcksRetransmit(e, headers);
      case Hello =>
    }
  }

  /** The retransmission list is left alone or emptied, and Loading still has something to ask for. */
  ghost predicate KeepsList(e: Endpoint, r: Endpoint) {
    (r.retransmit == e.retransmit || r.retransmit == map[]) && (Wants(e) ==> Wants(r))
  }

  lemma AcceptingKeepsList(e: Endpoint, d: Body, db: Database, now: nat)
    requires d.DatabaseDescription? && e.offset <= |e.summary| && e.state == Exchange
    ensures KeepsList(e, AcceptDd(e, d, db, now).endpoint)
  {
    RequestHeadersFrame(e, d.headers, db);
  }

  lemma NegotiatingKeepsList(e: Endpoint, d: Body, db: Database, now: nat)
    requires d.DatabaseDescription? && e.offset <= |e.summary| && e.state == ExStart
    ensures KeepsList(e, Negotiate(e, d, db, now).endpoint)
  {
    RequestHeadersFrame(e.(state := Exchange), d.headers, db);
  }

  lemma RestartingEmptiesList(e: Endpoint, db: Database, now: nat)
    ensures KeepsList(e, Restart(e, db, now).endpoint)
  {
  }

  /** A description leaves the list alone, or the exchange starts over. */
  lemma DescriptionKeepsList(e: Endpoint, d: Body, db: Database, now: nat)
    requires d.DatabaseDescription? && e.offset <= |e.summary|
    ensures KeepsList(e, ReceiveDd(e, d, db, now).endpoint)
  {
    if e.state == ExStart {
      NegotiatingKeepsList(e, d, db, now);
    } else if InStep(e, d) {
      AcceptingKeepsList(e, d, db, now);
    } else {
      RestartingEmptiesList(e, db, now);
    }
  }

  lemma ReceiveKeepsRoom(e: Endpoint, body: Body, db: Database, now: nat)
    requires WellKeyed(db) && e.offset <= |e.summary| && HasRoom(e, db)
    ensures HasRoom(Receive(e, body, db, now).endpoint, db)
  {
    ReceiveRetransmits(e, body, db, now);
    SubsetIsSmaller(Receive(e, body, db, now).endpoint.retransmit.Keys + db.Keys, e.retransmit.Keys + db.Keys);
  }

  lemma {:induction false} AnswersKeepWants(e: Endpoint, keys: seq<Key>, packets: seq<Body>, db: Database, now: nat)
    requires Wants(e)
    ensures Wants(AnswerRequests(e, keys, packets, db, now).endpoint)
    decreases |keys|
  {
    if keys != [] && keys[0] in db {
      var f := Flood(e, db[keys[0]], now);
      AnswersKeepWants(f.endpoint, keys[1..], packets + (if f.body.Some? then [f.body.value] else []), db, now);
    }
  }

  lemma ReceiveKeepsWants(e: Endpoint, body: Body, db: Database, now: nat)
    requires e.offset <= |e.summary| && Wants(e)
    ensures Wants(Receive(e, body, db, now).endpoint)
  {
    match body {
      case DatabaseDescription(_, _, _, _, _) => DescriptionKeepsList(e, body, db, now);
      case LinkStateRequest(keys) => AnswersKeepWants(e, keys, [], db, now);
      case LinkStateUpdate(lsas) => TakeUpdatesFrame(Intake(e, [], [], []), lsas, db, now);
      case LinkStateAck(headers) => TakeAcksFrame(e, headers);
      case Hello =>
    }
  }

  lemma StepKeepsWants(n: Net, a: Action, master: bool)
    requires Wants(SideOf(n, master).e)
    ensures Wants(SideOf(Step(n, a), master).e)
  {
    var x, channel := SideOf(n, master), if master then n.toM else n.toS;
    if a == Deliver(master) && channel != [] && x.up && x.e.offset <= |x.e.summary| {
      ReceiveKeepsWants(x.e, channel[0], x.db, n.now);
    }
  }

  lemma {:induction false} RunKeepsWants(n: Net, actions: seq<Action>, master: bool)
    requires Wants(SideOf(n, master).e)
    ensures Wants(SideOf(Run(n, actions), master).e)
    decreases |actions|
  {
    if actions != [] {
      StepKeepsWants(n, actions[0], master);
      RunKeepsWants(Step(n, actions[0]), actions[1..], master);
    }
  }

  // ------------------------------------------------------------- one side, out of Exchange

  ghost predicate RequestsShrink(e: Endpoint, r: Endpoint) {
    forall k :: k in r.requests ==> k in e.requests && r.requests[k] == e.requests[k]
  }

  /** What no packet and no timer undoes once a side has left Exchange. */
  ghost predicate Onward(x: Side, y: Side) {
    && y.up == x.up && y.db == x.db && y.e.mtu == x.e.mtu && Finished(y)
    && (x.e.state == Full ==> y.e.state == Full)
    && RequestsShrink(x.e, y.e)
    && (HasRoom(x.e, x.db) ==> HasRoom(y.e, y.db))
    && (Wants(x.e) ==> Wants(y.e))
  }

  lemma OnwardTrans(x: Side, y: Side, z: Side)
    requires Onward(x, y) && Onward(y, z)
    ensures Onward(x, z)
  {
  }

  /** A finished side takes anything without starting over; only updates change its requests. */
  lemma FinishedReceives(e: Endpoint, body: Body, db: Database, now: nat)
    requires (e.state == Loading || e.state == Full) && e.offset <= |e.summary| && !Restarts(e, body, db)
    ensures var r := Receive(e, body, db, now).endpoint;
            && r.mtu == e.mtu && RequestsShrink(e, r)
            && (r.state == Loading || r.state == Full) && (e.state == Full ==> r.state == Full)
  {
    match body {
      case DatabaseDescription(_, _, _, _, _) =>
      case LinkStateRequest(keys) => AnswerRequestsFrame(e, keys, [], db, now);
      case LinkStateUpdate(lsas) => TakeUpdatesFrame(Intake(e, [], [], []), lsas, db, now);
      case LinkStateAck(headers) => TakeAcksFrame(e, headers);
      case Hello =>
    }
  }

  lemma FinishedDelivers(x: Side, body: Body, now: nat)
    requires x.up && Finished(x) && x.e.offset <= |x.e.summary| && WellKeyed(x.db) && !Restarts(x.e, body, x.db)
    ensures Onward(x, DeliverSide(x, body, now).side)
  {
    FinishedReceives(x.e, body, x.db, now);
    if HasRoom(x.e, x.db) {
      ReceiveKeepsRoom(x.e, body, x.db, now);
    }
    if Wants(x.e) {
      ReceiveKeepsWants(x.e, body, x.db, now);
    }
  }

  /** An instance not older than the requested one settles the request. */
  ghost predicate Settles(lsa: Lsa, req: LsaHeader) {
    lsa.Header().Some? && lsa.Header().value.key == req.key && Compare(lsa.Header().value, req) != Less
  }

  lemma UpdateSettles(x: Side, lsa: Lsa, req: LsaHeader, now: nat)
    requires x.up && CanExchange(x.e) && x.e.offset <= |x.e.summary| && Settles(lsa, req)
    requires req.key in x.e.requests ==> x.e.requests[req.key] == req
    ensures req.key !in DeliverSide(x, LinkStateUpdate([lsa]), now).side.e.requests
  {
    var f := Intake(x.e, [], [], []);
    assert TakeUpdates(f, [lsa], x.db, now) == TakeUpdate(f, lsa, x.db, now) by {
      assert [lsa][1..] == [];
    }
  }

  /** The peer answers the request of a key it can send. */
  lemma RequestYields(y: Side, keys: seq<Key>, k: Key, now: nat)
    requires y.up && CanExchange(y.e) && y.e.offset <= |y.e.summary| && WellKeyed(y.db) && HasRoom(y.e, y.db)
    requires (forall x :: x in keys ==> x in y.db) && k in keys && Sendable(y.db[k], y.e.mtu)
    ensures LinkStateUpdate([y.db[k]]) in DeliverSide(y, LinkStateRequest(keys), now).packets
  {
    RequestsAreAnswered(y.e, keys, y.db, now);
    ReplyOf(keys, y.db, y.e.mtu, k);
  }

  lemma {:induction false} ChunksCover(s: seq<Key>, size: nat, k: Key) returns (c: nat)
    requires size > 0 && k in s
    ensures c < |Chunks(s, size)| && k in Chunks(s, size)[c]
    decreases |s|
  {
    if |s| <= size || k in s[..size] {
      c := 0;
    } else {
      var i :| 0 <= i < |s| && s[i] == k;
      assert s[size..][i - size] == k;
      c := ChunksCover(s[size..], size, k);
      c := c + 1;
    }
  }

  /** Every requested key is in some request packet. */
  lemma RequestsAreSent(e: Endpoint, k: Key) returns (c: nat)
    requires k in e.requests
    ensures c < |RequestPackets(e)| && RequestPackets(e)[c].LinkStateRequest? && k in RequestPackets(e)[c].keys
  {
    assert k in SortedKeys(e.requests.Keys);
    c := ChunksCover(SortedKeys(e.requests.Keys), Max(SatSub(e.mtu, PACKET_OVERHEAD) / 12, 1), k);
  }

  // --------------------------------------------------------------------------- both sides

  /** Packets in flight to one side. */
  function Channel(n: Net, master: bool): seq<Body> {
    if master then n.toM else n.toS
  }

  /** Both sides have left Exchange, with something to ask for while Loading and room to answer. */
  ghost predicate Steady(n: Net) {
    Reached(n) && Ready(n.m) && Ready(n.s)
  }

  /** Some run leads here. */
  ghost predicate Reached(n: Net) {
    exists start, actions :: Initial(start) && Run(start, actions) == n
  }

  lemma ReachedInvariant(n: Net)
    requires Reached(n)
    ensures OspfNetwork.Invariant(n)
  {
    var start, actions :| Initial(start) && Run(start, actions) == n;
    Reachable(start, actions);
  }

  lemma ReachedRun(n: Net, more: seq<Action>)
    requires Reached(n)
    ensures Reached(Run(n, more))
  {
    var start, actions :| Initial(start) && Run(start, actions) == n;
    RunAppend(start, actions, more);
  }

  lemma ReachedStep(n: Net, a: Action)
    requires Reached(n)
    ensures Reached(Step(n, a))
  {
    ReachedRun(n, [a]);
    RunOne(n, a);
  }

  ghost predicate Ready(x: Side) {
    x.up && Finished(x) && HasRoom(x.e, x.db) && Wants(x.e)
  }

  lemma OnwardReady(x: Side, y: Side)
    requires Ready(x) && Onward(x, y)
    ensures Ready(y)
  {
  }

  ghost predicate OnwardNet(n: Net, r: Net) {
    Onward(n.m, r.m) && Onward(n.s, r.s)
  }

  lemma OnwardNetTrans(a: Net, b: Net, c: Net)
    requires OnwardNet(a, b) && OnwardNet(b, c)
    ensures OnwardNet(a, c)
  {
    OnwardTrans(a.m, b.m, c.m);
    OnwardTrans(a.s, b.s, c.s);
  }

  /** What a delivery to one side does, when that side makes `y` of it. */
  ghost predicate Delivered(n: Net, r: Net, master: bool, y: Reply) {
    && Onward(SideOf(n, master), y.side) && SideOf(r, !master) == SideOf(n, !master)
    && Channel(n, master) != [] && Channel(r, master) == Channel(n, master)[1..]
    && SideOf(r, master) == y.side && Channel(r, !master) == Channel(n, !master) + y.packets
  }

  lemma OnwardSelf(x: Side)
    requires Finished(x)
    ensures Onward(x, x)
  {
  }

  ghost function Head(n: Net, master: bool): Reply
    requires Channel(n, master) != []
  {
    DeliverSide(SideOf(n, master), Channel(n, master)[0], n.now)
  }

  lemma DeliveryMoves(n: Net, master: bool)
    requires Channel(n, master) != [] && Onward(SideOf(n, master), Head(n, master).side)
    ensures Delivered(n, Step(n, Deliver(master)), master, Head(n, master))
  {
  }

  lemma DeliveryLands(n: Net, r: Net, master: bool, y: Reply)
    requires Steady(n) && Reached(r) && Delivered(n, r, master, y)
    ensures Steady(r) && OnwardNet(n, r)
  {
    OnwardReady(SideOf(n, master), y.side);
    OnwardSelf(SideOf(n, !master));
  }

  lemma HeadIsExpected(n: Net, master: bool)
    requires Reached(n) && Channel(n, master) != []
    ensures !Restarts(SideOf(n, master).e, Channel(n, master)[0], SideOf(n, master).db)
  {
    ReachedInvariant(n);
    if master {
      MasterDelivers(n);
    } else {
      SlaveDelivers(n);
    }
  }

  lemma HeadGoesOn(n: Net, master: bool)
    requires Steady(n) && Channel(n, master) != []
    ensures Onward(SideOf(n, master), Head(n, master).side)
  {
    HeadIsExpected(n, master);
    SteadySide(n, master);
    FinishedDelivers(SideOf(n, master), Channel(n, master)[0], n.now);
  }

  lemma SideLoads(n: Net, master: bool)
    requires Steady(n) && Channel(n, master) != []
    ensures var r := Step(n, Deliver(master)); Delivered(n, r, master, Head(n, master)) && Steady(r) && OnwardNet(n, r)
  {
    HeadGoesOn(n, master);
    DeliveryMoves(n, master);
    ReachedStep(n, Deliver(master));
    DeliveryLands(n, Step(n, Deliver(master)), master, Head(n, master));
  }

  /** Requests in flight to either side can be answered. */
  lemma RequestsKnown(n: Net, master: bool)
    requires Reached(n) && Channel(n, master) != []
    ensures RequestKnown(Channel(n, master)[0], SideOf(n, master).db)
  {
    ReachedInvariant(n);
    if master {
      MasterTail(n);
    } else {
      SlaveTail(n);
    }
  }

  // ------------------------------------------------------------------- one request's way

  ghost predicate Asks(body: Body, k: Key) {
    body.LinkStateRequest? && k in body.keys
  }

  /** A request of key `k` is among the first `i` packets. */
  ghost predicate Asking(channel: seq<Body>, k: Key, i: nat) {
    exists j :: 0 <= j < i && j < |channel| && Asks(channel[j], k)
  }

  ghost predicate Brings(body: Body, req: LsaHeader) {
    body.LinkStateUpdate? && |body.lsas| == 1 && Settles(body.lsas[0], req)
  }

  /** An update that settles the request is among the first `i` packets. */
  ghost predicate Bringing(channel: seq<Body>, req: LsaHeader, i: nat) {
    exists j :: 0 <= j < i && j < |channel| && Brings(channel[j], req)
  }

  /** The other side's database has what settles the request, in a form that fits a packet. */
  ghost predicate Serves(n: Net, master: bool, req: LsaHeader) {
    var y := SideOf(n, !master);
    req.key in y.db && Sendable(y.db[req.key], y.e.mtu) && Settles(y.db[req.key], req)
  }

  /** On the way of the request: still to be read by the other side, or answered already. */
  ghost predicate RequestOnTheWay(start: Net, n: Net, master: bool, req: LsaHeader, i: nat) {
    && Steady(n) && OnwardNet(start, n) && SideOf(n, master) == SideOf(start, master) && Serves(n, master, req)
    && i <= |Channel(n, !master)|
    && (Asking(Channel(n, !master), req.key, i) || Bringing(Channel(n, master), req, |Channel(n, master)|))
  }

  lemma BringingStays(channel: seq<Body>, more: seq<Body>, req: LsaHeader)
    requires Bringing(channel, req, |channel|)
    ensures Bringing(channel + more, req, |channel + more|)
  {
    var j :| 0 <= j < |channel| && Brings(channel[j], req);
    assert (channel + more)[j] == channel[j];
  }

  lemma BringingComes(channel: seq<Body>, more: seq<Body>, req: LsaHeader, update: Body)
    requires update in more && Brings(update, req)
    ensures Bringing(channel + more, req, |channel + more|)
  {
    var j :| 0 <= j < |more| && more[j] == update;
    assert (channel + more)[|channel| + j] == update;
  }

  lemma AskingWaits(channel: seq<Body>, k: Key, i: nat)
    requires Asking(channel, k, i + 1) && channel != [] && !Asks(channel[0], k)
    ensures Asking(channel[1..], k, i)
  {
    var j :| 0 <= j < i + 1 && j < |channel| && Asks(channel[j], k);
    assert channel[1..][j - 1] == channel[j];
  }

  lemma BringingWaits(channel: seq<Body>, req: LsaHeader, i: nat)
    requires Bringing(channel, req, i + 1) && channel != [] && !Brings(channel[0], req)
    ensures Bringing(channel[1..], req, i)
  {
    var j :| 0 <= j < i + 1 && j < |channel| && Brings(channel[j], req);
    assert channel[1..][j - 1] == channel[j];
  }

  /** The other side reads the request and sends the update. */
  lemma RequestIsRead(n: Net, master: bool, req: LsaHeader) returns (update: Body)
    requires Steady(n) && Serves(n, master, req) && Channel(n, !master) != [] && Asks(Channel(n, !master)[0], req.key)
    ensures update in Head(n, !master).packets && Brings(update, req)
  {
    var y, body := SideOf(n, !master), Channel(n, !master)[0];
    RequestsKnown(n, !master);
    SteadySide(n, !master);
    RequestYields(y, body.keys, req.key, n.now);
    update := LinkStateUpdate([y.db[req.key]]);
  }

  lemma SteadySide(n: Net, master: bool)
    requires Steady(n)
    ensures var y := SideOf(n, master);
            && y.up && CanExchange(y.e) && y.e.offset <= |y.e.summary| && WellKeyed(y.db) && HasRoom(y.e, y.db)
  {
    ReachedInvariant(n);
  }

  lemma ServesStill(n: Net, r: Net, master: bool, req: LsaHeader)
    requires Serves(n, master, req) && OnwardNet(n, r)
    ensures Serves(r, master, req)
  {
  }

  lemma RequestLands(start: Net, n: Net, r: Net, master: bool, req: LsaHeader, i: nat, y: Reply)
    requires RequestOnTheWay(start, n, master, req, i + 1)
    requires Delivered(n, r, !master, y) && Steady(r) && OnwardNet(n, r)
    requires Asks(Channel(n, !master)[0], req.key) ==> exists update :: update in y.packets && Brings(update, req)
    ensures RequestOnTheWay(start, r, master, req, i)
  {
    OnwardNetTrans(start, n, r);
    ServesStill(n, r, master, req);
    if Bringing(Channel(n, master), req, |Channel(n, master)|) {
      BringingStays(Channel(n, master), y.packets, req);
    } else if Asks(Channel(n, !master)[0], req.key) {
      var update :| update in y.packets && Brings(update, req);
      BringingComes(Channel(n, master), y.packets, req, update);
    } else {
      AskingWaits(Channel(n, !master), req.key, i);
    }
  }

  lemma RequestMoves(start: Net, n: Net, master: bool, req: LsaHeader, i: nat)
    requires RequestOnTheWay(start, n, master, req, i + 1)
    ensures RequestOnTheWay(start, Step(n, Deliver(!master)), master, req, i)
  {
    SideLoads(n, !master);
    if Asks(Channel(n, !master)[0], req.key) {
      var update := RequestIsRead(n, master, req);
    }
    RequestLands(start, n, Step(n, Deliver(!master)), master, req, i, Head(n, !master));
  }

  /** On the way of the update: still to be read, or the request is settled. */
  ghost predicate UpdateOnTheWay(start: Net, n: Net, master: bool, req: LsaHeader, i: nat) {
    && Steady(n) && OnwardNet(start, n) && i <= |Channel(n, master)|
    && (req.key in SideOf(n, master).e.requests ==>
          SideOf(n, master).e.requests[req.key] == req && Bringing(Channel(n, master), req, i))
  }

  lemma UpdateLands(start: Net, n: Net, r: Net, master: bool, req: LsaHeader, i: nat, y: Reply)
    requires UpdateOnTheWay(start, n, master, req, i + 1)
    requires Delivered(n, r, master, y) && Steady(r) && OnwardNet(n, r)
    requires Brings(Channel(n, master)[0], req) ==> req.key !in y.side.e.requests
    ensures UpdateOnTheWay(start, r, master, req, i)
  {
    OnwardNetTrans(start, n, r);
    if req.key in y.side.e.requests {
      BringingWaits(Channel(n, master), req, i);
    }
  }

  lemma UpdateIsRead(n: Net, master: bool, req: LsaHeader)
    requires Steady(n) && Channel(n, master) != [] && Brings(Channel(n, master)[0], req)
    requires req.key in SideOf(n, master).e.requests ==> SideOf(n, master).e.requests[req.key] == req
    ensures req.key !in Head(n, master).side.e.requests
  {
    var body := Channel(n, master)[0];
    SteadySide(n, master);
    assert body == LinkStateUpdate([body.lsas[0]]);
    UpdateSettles(SideOf(n, master), body.lsas[0], req, n.now);
  }

  lemma UpdateMoves(start: Net, n: Net, master: bool, req: LsaHeader, i: nat)
    requires UpdateOnTheWay(start, n, master, req, i + 1)
    ensures UpdateOnTheWay(start, Step(n, Deliver(master)), master, req, i)
  {
    SideLoads(n, master);
    if Brings(Channel(n, master)[0], req) {
      UpdateIsRead(n, master, req);
    }
    UpdateLands(start, n, Step(n, Deliver(master)), master, req, i, Head(n, master));
  }

  // ------------------------------------------------------------------- all of the requests

  /** What each delivery to a side takes from `k + 1` to `k` holds with `0` after the last one. */
  lemma DeliveriesInduction(trace: seq<Net>, master: bool, holds: (Net, nat) -> bool)
    requires Deliveries(trace, master) && holds(trace[0], |trace| - 1)
    requires forall n, k: nat :: holds(n, k + 1) ==> holds(Step(n, Deliver(master)), k)
    ensures holds(trace[|trace| - 1], 0)
  {
    var next := (a: Net, b: Net) => Delivers(a, b, master);
    forall i | 0 <= i < |trace| - 1 ensures next(trace[i], trace[i + 1]) {
      assert DeliversAt(trace, master, i);
    }
    TraceInduction(trace, next, holds, |trace| - 1);
  }

  lemma RequestsDrain(trace: seq<Net>, master: bool, req: LsaHeader)
    requires Deliveries(trace, !master) && RequestOnTheWay(trace[0], trace[0], master, req, |trace| - 1)
    ensures RequestOnTheWay(trace[0], trace[|trace| - 1], master, req, 0)
  {
    var start, other := trace[0], !master;
    var holds := (n: Net, k: nat) => RequestOnTheWay(start, n, master, req, k);
    forall n, k: nat | holds(n, k + 1) ensures holds(Step(n, Deliver(other)), k) {
      RequestMoves(start, n, master, req, k);
    }
    DeliveriesInduction(trace, other, holds);
  }

  lemma UpdatesDrain(trace: seq<Net>, master: bool, req: LsaHeader)
    requires Deliveries(trace, master) && UpdateOnTheWay(trace[0], trace[0], master, req, |trace| - 1)
    ensures UpdateOnTheWay(trace[0], trace[|trace| - 1], master, req, 0)
  {
    var start := trace[0];
    var holds := (n: Net, k: nat) => UpdateOnTheWay(start, n, master, req, k);
    forall n, k: nat | holds(n, k + 1) ensures holds(Step(n, Deliver(master)), k) {
      UpdateMoves(start, n, master, req, k);
    }
    DeliveriesInduction(trace, master, holds);
  }

  /** The requests of one side are on their way to the other. */
  ghost predicate AllAsked(n: Net, master: bool) {
    forall k :: k in SideOf(n, master).e.requests ==> Asking(Channel(n, !master), k, |Channel(n, !master)|)
  }

  /** The other side can serve everything that this side requests. */
  ghost predicate AllServed(n: Net, master: bool) {
    forall k :: k in SideOf(n, master).e.requests ==>
      SideOf(n, master).e.requests[k].key == k && Serves(n, master, SideOf(n, master).e.requests[k])
  }

  /** A side's request timer is waited for and fires. */
  ghost predicate Requests(n: Net, sent: Net, master: bool) {
    sent == Step(Step(n, Pass(Max(n.now, SideOf(n, master).e.requestDue))), Fire(master))
  }

  lemma TickAsks(e: Endpoint, now: nat, k: Key)
    requires e.state == Loading && e.requestDue <= now && k in e.requests
    ensures exists c :: 0 <= c < |Tick(e, now).packets| && Asks(Tick(e, now).packets[c], k)
  {
    var c := RequestsAreSent(e, k);
    var rest := DueUpdates(SortedKeys(e.retransmit.Keys), |SortedKeys(e.retransmit.Keys)|, e.retransmit, now);
    assert Tick(e, now).packets == RequestPackets(e) + rest;
    assert (RequestPackets(e) + rest)[c] == RequestPackets(e)[c];
  }

  lemma TickGoesOn(x: Side, now: nat)
    requires Ready(x)
    ensures Onward(x, FireSide(x, now).side) && FireSide(x, now).side.e.requests == x.e.requests
    ensures FireSide(x, now).side.e.state == x.e.state
  {
    assert FireSide(x, now).side.e.retransmit.Keys == x.e.retransmit.Keys;
  }

  lemma FireLands(n: Net, r: Net, master: bool, y: Reply)
    requires Steady(n) && Reached(r) && r == Moved(n, master, y) && Onward(SideOf(n, master), y.side)
    requires y.side.e.requests == SideOf(n, master).e.requests && y.side.e.state == SideOf(n, master).e.state
    requires AsksAll(y, Channel(n, !master) + y.packets)
    ensures Steady(r) && OnwardNet(n, r) && AllAsked(r, master)
    ensures SideOf(r, master).e.requests == SideOf(n, master).e.requests
    ensures SideOf(r, master).e.state == SideOf(n, master).e.state
  {
    OnwardReady(SideOf(n, master), y.side);
    OnwardSelf(SideOf(n, !master));
  }

  ghost predicate AsksAll(y: Reply, channel: seq<Body>) {
    forall k :: k in y.side.e.requests ==> Asking(channel, k, |channel|)
  }

  lemma AskingComes(channel: seq<Body>, more: seq<Body>, k: Key)
    requires exists c :: 0 <= c < |more| && Asks(more[c], k)
    ensures Asking(channel + more, k, |channel + more|)
  {
    var c :| 0 <= c < |more| && Asks(more[c], k);
    assert (channel + more)[|channel| + c] == more[c];
  }

  lemma FireAsks(x: Side, now: nat, channel: seq<Body>)
    requires x.up && x.e.state == Loading && x.e.requestDue <= now
    ensures AsksAll(FireSide(x, now), channel + FireSide(x, now).packets)
  {
    forall k | k in x.e.requests
      ensures Asking(channel + FireSide(x, now).packets, k, |channel + FireSide(x, now).packets|)
    {
      TickAsks(x.e, now, k);
      AskingComes(channel, FireSide(x, now).packets, k);
    }
  }

  /** Once its timer fires, everything a Loading side requests is on its way. */
  lemma DueRequests(n: Net, master: bool)
    requires Steady(n) && SideOf(n, master).e.state == Loading && SideOf(n, master).e.requestDue <= n.now
    ensures var r := Step(n, Fire(master));
            && Steady(r) && OnwardNet(n, r) && AllAsked(r, master)
            && SideOf(r, master).e.requests == SideOf(n, master).e.requests && SideOf(r, master).e.state == Loading
  {
    var x := SideOf(n, master);
    ReachedStep(n, Fire(master));
    TickGoesOn(x, n.now);
    FireAsks(x, n.now, Channel(n, !master));
    FireLands(n, Step(n, Fire(master)), master, FireSide(x, n.now));
  }

  lemma RequestsGoOut(n: Net, sent: Net, master: bool)
    requires Steady(n) && SideOf(n, master).e.state == Loading && Requests(n, sent, master)
    ensures Steady(sent) && OnwardNet(n, sent) && AllAsked(sent, master)
    ensures SideOf(sent, master).e.requests == SideOf(n, master).e.requests && SideOf(sent, master).e.state == Loading
  {
    var due := n.(now := Max(n.now, SideOf(n, master).e.requestDue));
    assert Step(n, Pass(due.now)) == due;
    ReachedStep(n, Pass(due.now));
    OnwardSelf(n.m);
    OnwardSelf(n.s);
    DueRequests(due, master);
    OnwardNetTrans(n, due, sent);
  }

  /** One request, from the timer to the update that settles it. */
  lemma RequestIsSettled(there: seq<Net>, back: seq<Net>, master: bool, k: Key)
    requires Deliveries(there, !master) && |there| == |Channel(there[0], !master)| + 1
    requires Deliveries(back, master) && back[0] == there[|there| - 1] && |back| == |Channel(back[0], master)| + 1
    requires Steady(there[0]) && AllAsked(there[0], master) && AllServed(there[0], master)
    requires k in SideOf(there[0], master).e.requests
    ensures var r := back[|back| - 1];
            Steady(r) && OnwardNet(there[0], r) && k !in SideOf(r, master).e.requests
  {
    var sent, answered := there[0], back[0];
    var req := SideOf(sent, master).e.requests[k];
    OnwardSelf(sent.m);
    OnwardSelf(sent.s);
    assert RequestOnTheWay(sent, sent, master, req, |there| - 1);
    RequestsDrain(there, master, req);
    OnwardSelf(answered.m);
    OnwardSelf(answered.s);
    assert UpdateOnTheWay(answered, answered, master, req, |back| - 1);
    UpdatesDrain(back, master, req);
    OnwardNetTrans(sent, answered, back[|back| - 1]);
  }

  lemma ServedStill(n: Net, r: Net, master: bool)
    requires AllServed(n, master) && OnwardNet(n, r)
    ensures AllServed(r, master)
  {
    forall k | k in SideOf(r, master).e.requests
      ensures SideOf(r, master).e.requests[k].key == k && Serves(r, master, SideOf(r, master).e.requests[k])
    {
      ServesStill(n, r, master, SideOf(n, master).e.requests[k]);
    }
  }

  lemma EmptyIsFull(x: Side, y: Side)
    requires Onward(x, y) && Wants(x.e) && forall k :: k in x.e.requests ==> k !in y.e.requests
    ensures y.e.state == Full
  {
    assert y.e.requests == map[];
  }

  /** One timer and two rounds of deliveries take a Loading side to Full. */
  lemma RequestRound(n: Net, there: seq<Net>, back: seq<Net>, master: bool)
    requires Steady(n) && AllServed(n, master) && SideOf(n, master).e.state == Loading
    requires Deliveries(there, !master) && |there| == |Channel(there[0], !master)| + 1
    requires Deliveries(back, master) && back[0] == there[|there| - 1] && |back| == |Channel(back[0], master)| + 1
    requires Requests(n, there[0], master)
    ensures var r := back[|back| - 1]; Steady(r) && OnwardNet(n, r) && SideOf(r, master).e.state == Full
  {
    var sent, r := there[0], back[|back| - 1];
    RequestsGoOut(n, sent, master);
    ServedStill(n, sent, master);
    forall k | k in SideOf(sent, master).e.requests
      ensures Steady(r) && OnwardNet(sent, r) && k !in SideOf(r, master).e.requests
    {
      RequestIsSettled(there, back, master, k);
    }
    assert exists k :: k in SideOf(sent, master).e.requests;
    OnwardNetTrans(n, sent, r);
    EmptyIsFull(SideOf(sent, master), SideOf(r, master));
  }

  /** Without loss, a side whose requests can all be served becomes Full. */
  lemma LoadsSide(n: Net, master: bool) returns (r: Net, actions: seq<Action>)
    requires Steady(n) && AllServed(n, master)
    ensures LossFree(actions) && Run(n, actions) == r
    ensures Steady(r) && OnwardNet(n, r) && SideOf(r, master).e.state == Full
  {
    if SideOf(n, master).e.state == Full {
      r, actions := n, [];
      OnwardSelf(n.m);
      OnwardSelf(n.s);
    } else {
      var pass := Pass(Max(n.now, SideOf(n, master).e.requestDue));
      var sent := Step(Step(n, pass), Fire(master));
      RunOne(n, pass);
      RunLast(n, [pass], Fire(master));
      var there, first := DeliveriesExist(sent, !master, |Channel(sent, !master)|);
      var answered := there[|there| - 1];
      var back, second := DeliveriesExist(answered, master, |Channel(answered, master)|);
      RunAppend(n, [pass] + [Fire(master)], first);
      RunAppend(n, [pass] + [Fire(master)] + first, second);
      r, actions := back[|back| - 1], [pass] + [Fire(master)] + first + second;
      RequestRound(n, there, back, master);
    }
  }
}
