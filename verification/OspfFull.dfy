/**
 Full is always within reach: after any run, if every advertisement still to be requested fits
 a packet and no database has fallen back behind its own summary, some continuation without
 loss takes both sides to Full with empty request lists. And what a side owes its peer stays on
 its retransmission list through every step but the acknowledgment of that very instance.
 */
module OspfFull {
  import opened Prelude
  import opened OspfLsa
  import opened ExchangeSpec
  import opened OspfRequests
  import opened OspfNetwork
  import opened OspfProgress
  import opened OspfDatabase
  import opened OspfAnswers
  import opened OspfLoading

  // ----------------------------------------------------------------------- what is asked for

  /** A header that may be on the request list: it is already, or the database lacks it. */
  ghost predicate MayAsk(requests: map<Key, LsaHeader>, db: Database, k: Key, h: LsaHeader) {
    || (k in requests && requests[k] == h)
    || Held(db, k).None?
    || Newer(h, Held(db, k).value)
  }

  ghost predicate AsksOnly(e: Endpoint, db: Database, r: Endpoint) {
    forall k :: k in r.requests ==> MayAsk(e.requests, db, k, r.requests[k])
  }

  lemma AsksOnlyTrans(a: Endpoint, b: Endpoint, c: Endpoint, db: Database)
    requires AsksOnly(a, db, b) && AsksOnly(b, db, c)
    ensures AsksOnly(a, db, c)
  {
  }

  lemma {:induction false} HeadersAskOnly(e: Endpoint, headers: seq<LsaHeader>, db: Database)
    ensures AsksOnly(e, db, RequestHeaders(e, headers, db))
    decreases |headers|
  {
    if headers != [] {
      HeadersAskOnly(RequestHeader(e, headers[0], db), headers[1..], db);
    }
  }

  lemma NegotiatingAsksOnly(e: Endpoint, d: Body, db: Database, now: nat)
    requires d.DatabaseDescription? && e.offset <= |e.summary|
    ensures AsksOnly(e, db, Negotiate(e, d, db, now).endpoint)
  {
    RequestHeadersFrame(e.(state := Exchange), d.headers, db);
    HeadersAskOnly(e.(state := Exchange), d.headers, db);
  }

  lemma AcceptingAsksOnly(e: Endpoint, d: Body, db: Database, now: nat)
    requires d.DatabaseDescription? && e.offset <= |e.summary|
    ensures AsksOnly(e, db, AcceptDd(e, d, db, now).endpoint)
  {
    RequestHeadersFrame(e, d.headers, db);
    HeadersAskOnly(e, d.headers, db);
  }

  lemma DescriptionAsksOnly(e: Endpoint, d: Body, db: Database, now: nat)
    requires d.DatabaseDescription? && e.offset <= |e.summary|
    ensures AsksOnly(e, db, ReceiveDd(e, d, db, now).endpoint)
  {
    if e.state == ExStart {
      NegotiatingAsksOnly(e, d, db, now);
    } else if InStep(e, d) {
      AcceptingAsksOnly(e, d, db, now);
    }
  }

  lemma {:induction false} AnswersAskOnly(e: Endpoint, keys: seq<Key>, packets: seq<Body>, db: Database, now: nat)
    ensures AsksOnly(e, db, AnswerRequests(e, keys, packets, db, now).endpoint)
    decreases |keys|
  {
    if keys != [] && keys[0] in db {
      var f := Flood(e, db[keys[0]], now);
      AnswersAskOnly(f.endpoint, keys[1..], packets + (if f.body.Some? then [f.body.value] else []), db, now);
    }
  }

  /** A packet adds to the request list only what the database lacks. */
  lemma ReceiveAsksOnly(e: Endpoint, body: Body, db: Database, now: nat)
    requires e.offset <= |e.summary|
    ensures AsksOnly(e, db, Receive(e, body, db, now).endpoint)
  {
    match body {
      case DatabaseDescription(_, _, _, _, _) => DescriptionAsksOnly(e, body, db, now);
      case LinkStateRequest(keys) => AnswersAskOnly(e, keys, [], db, now);
      case LinkStateUpdate(lsas) => TakeUpdatesFrame(Intake(e, [], [], []), lsas, db, now);
      case LinkStateAck(headers) => TakeAcksFrame(e, headers);
      case Hello =>
    }
  }

  // ------------------------------------------------------------------------------ quiet runs

  /** What a side keeps while only time passes, timers fire and packets arrive. */
  ghost predicate Quiet(x: Side, y: Side) {
    && y.up == x.up && y.db == x.db && y.e.mtu == x.e.mtu && y.e.summary == x.e.summary
    && AsksOnly(x.e, x.db, y.e)
    && (HasRoom(x.e, x.db) ==> HasRoom(y.e, y.db))
  }

  lemma QuietTrans(x: Side, y: Side, z: Side)
    requires Quiet(x, y) && Quiet(y, z)
    ensures Quiet(x, z)
  {
    AsksOnlyTrans(x.e, y.e, z.e, x.db);
  }

  lemma SummaryStays(n: Net, master: bool)
    requires Reached(n) && BothUp(n) && Channel(n, master) != []
    ensures var y := Head(n, master).side;
            y.up && y.e.summary == SideOf(n, master).e.summary && y.e.mtu == SideOf(n, master).e.mtu
    ensures WellKeyed(SideOf(n, master).db) && SideOf(n, master).e.offset <= |SideOf(n, master).e.summary|
  {
    ReachedInvariant(n);
    if master {
      MasterSideStays(n);
    } else {
      SlaveSideStays(n);
    }
  }

  lemma DeliveryIsQuiet(n: Net, master: bool)
    requires Reached(n) && BothUp(n) && Channel(n, master) != []
    ensures Quiet(SideOf(n, master), Head(n, master).side)
  {
    var x, body := SideOf(n, master), Channel(n, master)[0];
    SummaryStays(n, master);
    ReceiveAsksOnly(x.e, body, x.db, n.now);
    if HasRoom(x.e, x.db) {
      ReceiveKeepsRoom(x.e, body, x.db, n.now);
    }
  }

  lemma TimerIsQuiet(x: Side, now: nat)
    requires x.up
    ensures Quiet(x, FireSide(x, now).side)
  {
    assert FireSide(x, now).side.e.retransmit.Keys == x.e.retransmit.Keys;
  }

  ghost predicate QuietNet(n: Net, r: Net) {
    Quiet(n.m, r.m) && Quiet(n.s, r.s)
  }

  lemma MovesQuietly(n: Net, r: Net, master: bool, y: Side)
    requires SideOf(r, master) == y && SideOf(r, !master) == SideOf(n, !master) && Quiet(SideOf(n, master), y)
    ensures QuietNet(n, r)
  {
  }

  lemma StepIsQuiet(n: Net, a: Action)
    requires Reached(n) && BothUp(n) && (a.Pass? || a.Fire? || a.Deliver?)
    ensures QuietNet(n, Step(n, a))
  {
    var r := Step(n, a);
    match a {
      case Deliver(master) =>
        if Channel(n, master) != [] {
          DeliveryIsQuiet(n, master);
          MovesQuietly(n, r, master, Head(n, master).side);
        }
      case Fire(master) =>
        TimerIsQuiet(SideOf(n, master), n.now);
        MovesQuietly(n, r, master, FireSide(SideOf(n, master), n.now).side);
      case _ =>
    }
  }

  lemma {:induction false} RunIsQuiet(n: Net, actions: seq<Action>)
    requires Reached(n) && BothUp(n) && LossFree(actions)
    ensures QuietNet(n, Run(n, actions))
    decreases |actions|
  {
    if actions != [] {
      var next := Step(n, actions[0]);
      StepIsQuiet(n, actions[0]);
      ReachedStep(n, actions[0]);
      RunIsQuiet(next, actions[1..]);
      QuietTrans(n.m, next.m, Run(n, actions).m);
      QuietTrans(n.s, next.s, Run(n, actions).s);
    }
  }

  // ------------------------------------------------------------------------------- to Full

  /** All that one side may have to ask of the other is there, not older than described, and fits a packet. */
  ghost predicate CanServe(n: Net, master: bool) {
    var x := SideOf(n, master);
    forall h :: h in SideOf(n, !master).e.summary && MayAsk(x.e.requests, x.db, h.key, h) ==> Serves(n, master, h)
  }

  /** Requests are among the headers that the peer describes. */
  lemma RequestsDescribed(n: Net, master: bool, k: Key)
    requires Reached(n) && k in SideOf(n, master).e.requests
    ensures var h := SideOf(n, master).e.requests[k]; h.key == k && h in SideOf(n, !master).e.summary
  {
    ReachedInvariant(n);
    var x, peer := SideOf(n, master), SideOf(n, !master).e.summary;
    var i :| 0 <= i < |x.accepted| && x.accepted[i] == x.e.requests[k];
    assert peer[i] == x.accepted[i];
  }

  lemma ServedLater(n: Net, r: Net, master: bool)
    requires QuietNet(n, r) && Reached(r) && CanServe(n, master)
    ensures AllServed(r, master)
  {
    forall k | k in SideOf(r, master).e.requests
      ensures SideOf(r, master).e.requests[k].key == k && Serves(r, master, SideOf(r, master).e.requests[k])
    {
      RequestsDescribed(r, master, k);
      assert Serves(n, master, SideOf(r, master).e.requests[k]);
    }
  }

  lemma FinishedIsSteady(n: Net, r: Net)
    requires Reached(r) && QuietNet(n, r) && BothUp(n) && Finished(r.m) && Finished(r.s)
    requires HasRoom(n.m.e, n.m.db) && HasRoom(n.s.e, n.s.db)
    ensures Steady(r)
  {
    ReachedWants(r);
  }

  /** In every run, a side in Loading has something to ask for. */
  lemma ReachedWants(n: Net)
    requires Reached(n)
    ensures Wants(n.m.e) && Wants(n.s.e)
  {
    var start, actions :| Initial(start) && Run(start, actions) == n;
    RunKeepsWants(start, actions, true);
    RunKeepsWants(start, actions, false);
  }

  ghost predicate BothFull(n: Net) {
    && n.m.e.state == Full && n.m.e.requests == map[]
    && n.s.e.state == Full && n.s.e.requests == map[]
  }

  lemma FullAsksNothing(n: Net)
    requires Reached(n) && n.m.e.state == Full && n.s.e.state == Full
    ensures BothFull(n)
  {
    ReachedInvariant(n);
  }

  lemma LoadsBoth(n: Net) returns (more: seq<Action>)
    requires Steady(n) && AllServed(n, true) && AllServed(n, false)
    ensures LossFree(more) && BothFull(Run(n, more))
  {
    var r, first := LoadsSide(n, true);
    ServedStill(n, r, false);
    var last, second := LoadsSide(r, false);
    RunAppend(n, first, second);
    FullAsksNothing(last);
    more := first + second;
  }

  lemma FinishesReached(n: Net) returns (r: Net, more: seq<Action>)
    requires Reached(n) && BothUp(n)
    ensures LossFree(more) && r == Run(n, more) && Reached(r) && QuietNet(n, r) && Finished(r.m) && Finished(r.s)
  {
    ReachedInvariant(n);
    more := FinishesFrom(n);
    r := Run(n, more);
    ReachedRun(n, more);
    RunIsQuiet(n, more);
  }

  lemma FullFrom(n: Net) returns (more: seq<Action>)
    requires Reached(n) && BothUp(n) && HasRoom(n.m.e, n.m.db) && HasRoom(n.s.e, n.s.db)
    requires CanServe(n, true) && CanServe(n, false)
    ensures LossFree(more) && BothFull(Run(n, more))
  {
    var r, first := FinishesReached(n);
    FinishedIsSteady(n, r);
    ServedLater(n, r, true);
    ServedLater(n, r, false);
    var second := LoadsBoth(r);
    RunAppend(n, first, second);
    more := first + second;
  }

  /**
   After any run, however lossy, that both sides have started in: if what either side may still
   have to request is held by the other, not older than described, and fits a packet, then some
   continuation without loss takes both sides to Full with empty request lists.
   */
  lemma ReachesFull(n: Net, actions: seq<Action>)
    requires Initial(n)
    requires var r := Run(n, actions);
             && BothUp(r) && HasRoom(r.m.e, r.m.db) && HasRoom(r.s.e, r.s.db)
             && CanServe(r, true) && CanServe(r, false)
    ensures exists more :: LossFree(more) && BothFull(Run(n, actions + more))
  {
    var more := FullFrom(Run(n, actions));
    RunAppend(n, actions, more);
  }

  // -------------------------------------------------------- databases that are only upgraded

  /** Every header of the summary is held as it is, or as a strictly newer instance. */
  ghost predicate SummaryHeld(x: Side) {
    forall h :: h in x.e.summary ==> Holds(x.db, h)
  }

  lemma BeginHolds(x: Side, now: nat)
    requires SummaryHeld(x) && WellKeyed(x.db)
    ensures SummaryHeld(BeginSide(x, now).side)
  {
    SummaryKeys(x.db);
    forall h | h in Summary(x.db) ensures Holds(x.db, h) {
      HoldsItsHeaders(x.db, h);
    }
  }

  lemma {:induction false} AnswersSummarise(e: Endpoint, keys: seq<Key>, packets: seq<Body>, db: Database, now: nat)
    ensures Summarises(e, db, AnswerRequests(e, keys, packets, db, now).endpoint)
    decreases |keys|
  {
    if keys != [] && keys[0] in db {
      var f := Flood(e, db[keys[0]], now);
      AnswersSummarise(f.endpoint, keys[1..], packets + (if f.body.Some? then [f.body.value] else []), db, now);
    }
  }

  ghost predicate Summarises(e: Endpoint, db: Database, r: Endpoint) {
    r.summary == e.summary || r.summary == Summary(db)
  }

  lemma NegotiatingSummarises(e: Endpoint, d: Body, db: Database, now: nat)
    requires d.DatabaseDescription? && e.offset <= |e.summary|
    ensures Summarises(e, db, Negotiate(e, d, db, now).endpoint)
  {
    RequestHeadersFrame(e.(state := Exchange), d.headers, db);
  }

  lemma AcceptingSummarises(e: Endpoint, d: Body, db: Database, now: nat)
    requires d.DatabaseDescription? && e.offset <= |e.summary|
    ensures Summarises(e, db, AcceptDd(e, d, db, now).endpoint)
  {
    RequestHeadersFrame(e, d.headers, db);
  }

  lemma DescriptionSummarises(e: Endpoint, d: Body, db: Database, now: nat)
    requires d.DatabaseDescription? && e.offset <= |e.summary|
    ensures Summarises(e, db, ReceiveDd(e, d, db, now).endpoint)
  {
    if e.state == ExStart {
      NegotiatingSummarises(e, d, db, now);
    } else if InStep(e, d) {
      AcceptingSummarises(e, d, db, now);
    }
  }

  /** The summary only changes when the exchange starts over, and is then that of the database. */
  lemma ReceiveSummarises(e: Endpoint, body: Body, db: Database, now: nat)
    requires e.offset <= |e.summary|
    ensures Summarises(e, db, Receive(e, body, db, now).endpoint)
  {
    match body {
      case DatabaseDescription(_, _, _, _, _) => DescriptionSummarises(e, body, db, now);
      case LinkStateRequest(keys) => AnswersSummarise(e, keys, [], db, now);
      case LinkStateUpdate(lsas) => TakeUpdatesFrame(Intake(e, [], [], []), lsas, db, now);
      case LinkStateAck(headers) => TakeAcksFrame(e, headers);
      case Hello =>
    }
  }

  lemma DeliveryHolds(x: Side, body: Body, now: nat)
    requires SummaryHeld(x) && WellKeyed(x.db)
    ensures SummaryHeld(DeliverSide(x, body, now).side)
  {
    SummaryKeys(x.db);
    if x.up && x.e.offset <= |x.e.summary| {
      ReceiveSummarises(x.e, body, x.db, now);
    }
    forall h | h in Summary(x.db) ensures Holds(x.db, h) {
      HoldsItsHeaders(x.db, h);
    }
  }

  lemma StepHolds(n: Net, a: Action, master: bool)
    requires SummaryHeld(SideOf(n, master)) && WellKeyed(SideOf(n, master).db)
    requires a.ChangeDatabase? && a.master == master ==> Upgrades(SideOf(n, master).db, a.db)
    ensures SummaryHeld(SideOf(Step(n, a), master)) && WellKeyed(SideOf(Step(n, a), master).db)
  {
    var x := SideOf(n, master);
    match a {
      case Begin(m) => BeginHolds(x, n.now);
      case Deliver(m) =>
        if m == master && Channel(n, master) != [] {
          DeliveryHolds(x, Channel(n, master)[0], n.now);
        }
      case ChangeDatabase(m, db) =>
        if m == master {
          forall h | h in x.e.summary ensures Holds(db, h) {
            HoldsStill(x.db, db, h);
          }
        }
      case _ =>
    }
  }

  lemma {:induction false} RunHolds(n: Net, actions: seq<Action>, master: bool)
    requires SummaryHeld(SideOf(n, master)) && WellKeyed(SideOf(n, master).db) && OnlyUpgrades(n, actions, master)
    ensures SummaryHeld(SideOf(Run(n, actions), master))
    decreases |actions|
  {
    if actions != [] {
      StepHolds(n, actions[0], master);
      RunHolds(Step(n, actions[0]), actions[1..], master);
    }
  }

  /** All that one side may have to ask of the other fits a packet as the other holds it now. */
  ghost predicate Fits(n: Net, master: bool) {
    var x, y := SideOf(n, master), SideOf(n, !master);
    forall h :: h in y.e.summary && MayAsk(x.e.requests, x.db, h.key, h) && h.key in y.db ==>
      Sendable(y.db[h.key], y.e.mtu)
  }

  lemma HeldServes(n: Net, master: bool)
    requires Reached(n) && SummaryHeld(SideOf(n, !master)) && Fits(n, master)
    ensures CanServe(n, master)
  {
    ReachedInvariant(n);
    var y := SideOf(n, !master);
    forall h | h in y.e.summary && MayAsk(SideOf(n, master).e.requests, SideOf(n, master).db, h.key, h)
      ensures Serves(n, master, h)
    {
      assert Holds(y.db, h) && h.key in y.db;
      HeldSettles(y.db, h);
    }
  }

  lemma HeldSettles(db: Database, h: LsaHeader)
    requires Holds(db, h) && WellKeyed(db)
    ensures Settles(db[h.key], h)
  {
    CompareAntisymmetric(h, h);
    CompareAntisymmetric(db[h.key].Header().value, h);
  }

  /** When databases are only ever upgraded, it is enough that what may be requested fits a packet. */
  lemma UpgradesReachFull(n: Net, actions: seq<Action>)
    requires Initial(n) && OnlyUpgrades(n, actions, true) && OnlyUpgrades(n, actions, false)
    requires var r := Run(n, actions);
             && BothUp(r) && HasRoom(r.m.e, r.m.db) && HasRoom(r.s.e, r.s.db)
             && Fits(r, true) && Fits(r, false)
    ensures exists more :: LossFree(more) && BothFull(Run(n, actions + more))
  {
    var r := Run(n, actions);
    RunHolds(n, actions, true);
    RunHolds(n, actions, false);
    HeldServes(r, true);
    HeldServes(r, false);
    ReachesFull(n, actions);
  }

  // ------------------------------------------------------------------------- what is owed

  /** The entry is for the same instance, or for the one in the database. */
  ghost predicate StillOwes(e: Endpoint, r: Endpoint, k: Key, db: Database) {
    && k in e.retransmit && k in r.retransmit
    && (r.retransmit[k].lsa == e.retransmit[k].lsa || (k in db && r.retransmit[k].lsa == db[k]))
  }

  lemma FloodStillOwes(e: Endpoint, key: Key, db: Database, now: nat, k: Key)
    requires k in e.retransmit && WellKeyed(db) && key in db
    ensures StillOwes(e, Flood(e, db[key], now).endpoint, k, db)
  {
  }

  lemma {:induction false} AnswersStillOwe(e: Endpoint, keys: seq<Key>, packets: seq<Body>, db: Database, now: nat,
                                           k: Key)
    requires k in e.retransmit && WellKeyed(db) && forall x :: x in keys ==> x in db
    ensures StillOwes(e, AnswerRequests(e, keys, packets, db, now).endpoint, k, db)
    decreases |keys|
  {
    if keys != [] {
      var f := Flood(e, db[keys[0]], now);
      FloodStillOwes(e, keys[0], db, now, k);
      AnswersStillOwe(f.endpoint, keys[1..], packets + (if f.body.Some? then [f.body.value] else []), db, now, k);
    }
  }

  lemma {:induction false} UpdatesStillOwe(f: Intake, lsas: seq<Lsa>, db: Database, now: nat, k: Key)
    requires k in f.endpoint.retransmit && WellKeyed(db)
    ensures StillOwes(f.endpoint, TakeUpdates(f, lsas, db, now).endpoint, k, db)
    decreases |lsas|
  {
    if lsas != [] {
      UpdatesStillOwe(TakeUpdate(f, lsas[0], db, now), lsas[1..], db, now, k);
    }
  }

  /** One of the acknowledged headers is the instance on the list. */
  ghost predicate AcknowledgedBy(e: Endpoint, body: Body, k: Key) {
    && k in e.retransmit && CanExchange(e) && body.LinkStateAck?
    && exists h :: h in body.acked && h.key == k && Acknowledges(h, e.retransmit[k])
  }

  lemma DescriptionStillOwes(e: Endpoint, d: Body, db: Database, now: nat, k: Key)
    requires d.DatabaseDescription? && e.offset <= |e.summary| && k in e.retransmit && !Restarts(e, d, db)
    ensures ReceiveDd(e, d, db, now).endpoint.retransmit == e.retransmit
  {
    RequestHeadersFrame(e, d.headers, db);
    RequestHeadersFrame(e.(state := Exchange), d.headers, db);
  }

  /** Unless it restarts the exchange, a packet takes an entry off exactly by acknowledging it. */
  lemma ReceiveStillOwes(e: Endpoint, body: Body, db: Database, now: nat, k: Key)
    requires e.offset <= |e.summary| && k in e.retransmit && WellKeyed(db) && !Restarts(e, body, db)
    ensures var r := Receive(e, body, db, now).endpoint;
            if AcknowledgedBy(e, body, k) then k !in r.retransmit else StillOwes(e, r, k, db)
  {
    match body {
      case DatabaseDescription(_, _, _, _, _) => DescriptionStillOwes(e, body, db, now, k);
      case LinkStateRequest(keys) =>
        if CanExchange(e) {
          AnswersStillOwe(e, keys, [], db, now, k);
        }
      case LinkStateUpdate(lsas) => UpdatesStillOwe(Intake(e, [], [], []), lsas, db, now, k);
      case LinkStateAck(headers) => AcknowledgedExactly(e, headers, k);
      case Hello =>
    }
  }

  /** The action delivers an acknowledgment of the instance on the side's list. */
  ghost predicate Acknowledged(n: Net, a: Action, master: bool, k: Key) {
    a == Deliver(master) && Channel(n, master) != [] && AcknowledgedBy(SideOf(n, master).e, Channel(n, master)[0], k)
  }

  /** The side floods another instance of the key. */
  ghost predicate Refloods(a: Action, master: bool, k: Key) {
    a.FloodLsa? && a.master == master && a.lsa.key == k
  }

  /** Still owed after the step: the instance owed before, that of the database, or the one just flooded. */
  ghost predicate OwedAfter(x: Side, a: Action, master: bool, k: Key, y: Side) {
    StillOwes(x.e, y.e, k, x.db) || (Refloods(a, master, k) && k in y.e.retransmit && y.e.retransmit[k].lsa == a.lsa)
  }

  lemma DeliveryStillOwes(n: Net, master: bool, k: Key)
    requires Reached(n) && k in SideOf(n, master).e.retransmit && Channel(n, master) != []
    ensures var y := Head(n, master).side;
            if AcknowledgedBy(SideOf(n, master).e, Channel(n, master)[0], k) then k !in y.e.retransmit
            else StillOwes(SideOf(n, master).e, y.e, k, SideOf(n, master).db)
  {
    var x := SideOf(n, master);
    OwesWhenUp(n, master, k);
    HeadIsExpected(n, master);
    ReceiveStillOwes(x.e, Channel(n, master)[0], x.db, n.now, k);
  }

  lemma OwesWhenUp(n: Net, master: bool, k: Key)
    requires Reached(n) && k in SideOf(n, master).e.retransmit
    ensures var x := SideOf(n, master); x.up && WellKeyed(x.db) && x.e.offset <= |x.e.summary|
  {
    ReachedInvariant(n);
  }

  /** In every state a run can reach, an advertisement leaves the list exactly by its own acknowledgment. */
  lemma StepStillOwes(n: Net, a: Action, master: bool, k: Key)
    requires Reached(n) && k in SideOf(n, master).e.retransmit
    ensures var x, y := SideOf(n, master), SideOf(Step(n, a), master);
            if Acknowledged(n, a, master, k) then k !in y.e.retransmit else OwedAfter(x, a, master, k, y)
  {
    OwesWhenUp(n, master, k);
    match a {
      case Deliver(m) =>
        if m == master && Channel(n, master) != [] {
          DeliveryStillOwes(n, master, k);
        }
      case _ =>
    }
  }

  /** No action of the run delivers an acknowledgment of what is on the list for the key. */
  ghost predicate Unacknowledged(n: Net, actions: seq<Action>, master: bool, k: Key)
    decreases |actions|
  {
    actions == [] ||
    (!Acknowledged(n, actions[0], master, k) && Unacknowledged(Step(n, actions[0]), actions[1..], master, k))
  }

  /** What is owed stays owed along every run, however lossy, until it is acknowledged. */
  lemma {:induction false} PendingStays(n: Net, actions: seq<Action>, master: bool, k: Key)
    requires Reached(n) && k in SideOf(n, master).e.retransmit && Unacknowledged(n, actions, master, k)
    ensures k in SideOf(Run(n, actions), master).e.retransmit
    decreases |actions|
  {
    if actions != [] {
      StepStillOwes(n, actions[0], master, k);
      ReachedStep(n, actions[0]);
      PendingStays(Step(n, actions[0]), actions[1..], master, k);
    }
  }
}
