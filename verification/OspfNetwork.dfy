/**
 Two exchange endpoints over two lossy FIFO channels, and what holds in every run.

 A run is any sequence of actions: start a side, deliver or lose packets, fire timers, flood
 advertisements, change a database without losing keys, let time pass. `Invariant` ties both
 endpoints and both channels to two page counters; the theorems at the end read it off.
 */
module OspfNetwork {
  import opened Prelude
  import opened OspfLsa
  import opened ExchangeSpec
  import opened OspfRequests

  /** One side: its exchange and database, and the history of what it accepted and saw. */
  datatype Side = Side(
    up: bool,
    e: Endpoint,
    db: Database,
    pages: nat,                  // summary pages cut since start
    accepted: seq<LsaHeader>,    // concatenation of the header lists accepted
    seen: set<LsaHeader>)        // headers its database held, or of updates it accepted

  /** `m` is the side with the larger router id; `toM` and `toS` are packets in flight. */
  datatype Net = Net(m: Side, s: Side, toM: seq<Body>, toS: seq<Body>, now: nat, base: nat, slaveBase: nat)

  datatype Action =
    | Begin(master: bool)
    | Deliver(master: bool)
    | Lose(master: bool, at: nat)
    | Fire(master: bool)
    | FloodLsa(master: bool, lsa: Lsa)
    | ChangeDatabase(master: bool, db: Database)
    | Pass(time: nat)

  datatype Reply = Reply(side: Side, packets: seq<Body>)

  // ------------------------------------------------------------------------------- steps

  ghost predicate Negotiates(e: Endpoint, d: Body)
    requires d.DatabaseDescription?
  {
    && e.state == ExStart && Readable(e, d)
    && (if e.master then !d.flags.init && !d.flags.master && d.sequence == e.sequence
        else d.flags == INITIAL_FLAGS && d.headers == [])
  }

  ghost predicate Proceeds(e: Endpoint, d: Body)
    requires d.DatabaseDescription?
  {
    CanExchange(e) && Readable(e, d) && !Duplicate(e, d) && InStep(e, d)
  }

  /** The header list this body adds to those the side has accepted. */
  ghost function NewlyAccepted(e: Endpoint, body: Body): seq<LsaHeader> {
    if body.DatabaseDescription? && (Negotiates(e, body) || Proceeds(e, body)) then body.headers else []
  }

  /** Whether the side answers with the next page of its own summary. */
  ghost predicate CutsPage(e: Endpoint, body: Body) {
    && body.DatabaseDescription?
    && (Negotiates(e, body) || (Proceeds(e, body) && (!e.master || SentMore(e) || body.flags.more)))
  }

  ghost function BeginSide(x: Side, now: nat): Reply {
    if x.up then Reply(x, [])
    else
      var sent := Start(x.e, x.db, now);
      Reply(x.(up := true, e := sent.endpoint), [sent.body])
  }

  ghost function DeliverSide(x: Side, body: Body, now: nat): Reply {
    if !x.up || x.e.offset > |x.e.summary| then Reply(x, [])
    else
      var out := Receive(x.e, body, x.db, now);
      Reply(x.(e := out.endpoint,
               pages := x.pages + if CutsPage(x.e, body) then 1 else 0,
               accepted := x.accepted + NewlyAccepted(x.e, body),
               seen := x.seen + HeaderSet(x.db) + OfferedHeaders(out.advertisements)),
            out.packets)
  }

  ghost function FireSide(x: Side, now: nat): Reply {
    if !x.up then Reply(x, [])
    else
      var t := Tick(x.e, now);
      Reply(x.(e := t.endpoint), t.packets)
  }

  ghost function FloodSide(x: Side, lsa: Lsa, now: nat): Reply {
    if !x.up then Reply(x, [])
    else
      var f := Flood(x.e, lsa, now);
      Reply(x.(e := f.endpoint), if f.body.Some? then [f.body.value] else [])
  }

  ghost function ChangeSide(x: Side, db: Database): Side {
    if WellKeyed(db) && x.db.Keys <= db.Keys then x.(db := db) else x
  }

  /** A side moved: its packets join the channel to the other side. */
  ghost function Moved(n: Net, master: bool, r: Reply): Net {
    if master then n.(m := r.side, toS := n.toS + r.packets)
    else n.(s := r.side, toM := n.toM + r.packets)
  }

  ghost function Step(n: Net, a: Action): Net {
    match a
    case Begin(master) => Moved(n, master, BeginSide(if master then n.m else n.s, n.now))
    case Deliver(master) =>
      if master then
        if n.toM == [] then n else Moved(n.(toM := n.toM[1..]), true, DeliverSide(n.m, n.toM[0], n.now))
      else
        if n.toS == [] then n else Moved(n.(toS := n.toS[1..]), false, DeliverSide(n.s, n.toS[0], n.now))
    case Lose(master, at) =>
      if master then
        if at < |n.toM| then n.(toM := n.toM[..at] + n.toM[at + 1..]) else n
      else
        if at < |n.toS| then n.(toS := n.toS[..at] + n.toS[at + 1..]) else n
    case Fire(master) => Moved(n, master, FireSide(if master then n.m else n.s, n.now))
    case FloodLsa(master, lsa) => Moved(n, master, FloodSide(if master then n.m else n.s, lsa, n.now))
    case ChangeDatabase(master, db) =>
      if master then n.(m := ChangeSide(n.m, db)) else n.(s := ChangeSide(n.s, db))
    case Pass(time) => if n.now <= time then n.(now := time) else n
  }

  ghost function Run(n: Net, actions: seq<Action>): Net
    decreases |actions|
  {
    if actions == [] then n else Run(Step(n, actions[0]), actions[1..])
  }

  ghost predicate Initial(n: Net) {
    && n.base < W32 && n.slaveBase < W32
    && n.m.e.mtu == n.s.e.mtu
    && n.m == Side(false, NewEndpoint(true, n.m.e.mtu, n.base), n.m.db, 0, [], {})
    && n.s == Side(false, NewEndpoint(false, n.s.e.mtu, n.slaveBase), n.s.db, 0, [], {})
    && WellKeyed(n.m.db) && WellKeyed(n.s.db)
    && n.toM == [] && n.toS == []
  }

  // ------------------------------------------------------------------------------- pages

  /** Where page `pages` of a summary ends. */
  ghost function PageEnd(length: nat, size: nat, pages: nat): (end: nat)
    ensures end <= length
  {
    if pages == 0 then 0 else NextOffset(PageEnd(length, size, pages - 1), size, length)
  }

  lemma PageEndGrows(length: nat, size: nat, pages: nat)
    ensures PageEnd(length, size, pages) <= PageEnd(length, size, pages + 1)
  {
  }

  /** The description carrying page `t`, or the empty initial one for `t == 0`. */
  ghost function Page(summary: seq<LsaHeader>, mtu: nat, master: bool, sequence: nat, t: nat): Body {
    var length, size := |summary|, ChunkSize(mtu);
    PageEndGrows(length, size, if t == 0 then 0 else t - 1);
    if t == 0 then DatabaseDescription(mtu, OPTIONS, INITIAL_FLAGS, sequence, [])
    else
      DatabaseDescription(mtu, OPTIONS, DdFlags(false, PageEnd(length, size, t) < length, master, false),
        sequence, summary[PageEnd(length, size, t - 1)..PageEnd(length, size, t)])
  }

  /** The sequence number `t` steps after `base`. */
  ghost function After(base: nat, t: nat): nat {
    Wrap32(base + t)
  }

  ghost function MasterPage(n: Net, t: nat): Body {
    Page(n.m.e.summary, n.m.e.mtu, true, After(n.base, t), t)
  }

  /** The slave's page `t` answers the master's sequence `base + t - 1`. */
  ghost function SlavePage(n: Net, t: nat): Body {
    Page(n.s.e.summary, n.s.e.mtu, false, if t == 0 then n.slaveBase else After(n.base, t - 1), t)
  }

  ghost function MasterEnd(n: Net, t: nat): nat {
    PageEnd(|n.m.e.summary|, ChunkSize(n.m.e.mtu), t)
  }

  ghost function SlaveEnd(n: Net, t: nat): nat {
    PageEnd(|n.s.e.summary|, ChunkSize(n.s.e.mtu), t)
  }

  /** After slave page `t` neither side has anything left to describe. */
  ghost predicate Complete(n: Net, t: nat) {
    t >= 2 && MasterEnd(n, t - 1) == |n.m.e.summary| && SlaveEnd(n, t) == |n.s.e.summary|
  }

  // ---------------------------------------------------------------------------- channels

  ghost predicate RequestKnown(body: Body, db: Database) {
    body.LinkStateRequest? ==> forall k :: k in body.keys ==> k in db
  }

  ghost predicate IsCopy(channel: seq<Body>, q: nat, lo: Body, hi: Body)
    requires q < |channel|
  {
    channel[q].DatabaseDescription? ==> channel[q] == lo || channel[q] == hi
  }

  ghost predicate Stays(channel: seq<Body>, q: nat, r: nat, hi: Body)
    requires q < r < |channel|
  {
    channel[q] == hi && channel[r].DatabaseDescription? ==> channel[r] == hi
  }

  ghost predicate Answerable(channel: seq<Body>, q: nat, db: Database)
    requires q < |channel|
  {
    RequestKnown(channel[q], db)
  }

  /** Descriptions in flight are copies of `lo` followed by copies of `hi`; requests can be answered. */
  ghost predicate InFlight(channel: seq<Body>, lo: Body, hi: Body, db: Database) {
    && (forall q {:trigger IsCopy(channel, q, lo, hi)} :: 0 <= q < |channel| ==> IsCopy(channel, q, lo, hi))
    && (forall q, r {:trigger Stays(channel, q, r, hi)} :: 0 <= q < r < |channel| ==> Stays(channel, q, r, hi))
    && (forall q {:trigger Answerable(channel, q, db)} :: 0 <= q < |channel| ==> Answerable(channel, q, db))
  }

  ghost predicate Plain(packets: seq<Body>, db: Database) {
    forall q :: 0 <= q < |packets| ==> !packets[q].DatabaseDescription? && RequestKnown(packets[q], db)
  }

  /** Dropping any packet, in particular the head, keeps the order of the rest. */
  lemma InFlightDrop(channel: seq<Body>, at: nat, lo: Body, hi: Body, db: Database)
    requires InFlight(channel, lo, hi, db) && at < |channel|
    ensures InFlight(channel[..at] + channel[at + 1..], lo, hi, db)
  {
    var rest := channel[..at] + channel[at + 1..];
    forall q: nat {:trigger IsCopy(rest, q, lo, hi)} | q < |rest| ensures IsCopy(rest, q, lo, hi)
      && Answerable(rest, q, db) {
      var k := if q < at then q else q + 1;
      assert IsCopy(channel, k, lo, hi) && Answerable(channel, k, db) && rest[q] == channel[k];
    }
    forall q: nat, r: nat {:trigger Stays(rest, q, r, hi)} | q < r < |rest| ensures Stays(rest, q, r, hi) {
      var k, m := if q < at then q else q + 1, if r < at then r else r + 1;
      assert Stays(channel, k, m, hi) && rest[q] == channel[k] && rest[r] == channel[m];
    }
    forall q: nat {:trigger Answerable(rest, q, db)} | q < |rest| ensures Answerable(rest, q, db) {
      assert IsCopy(rest, q, lo, hi);
    }
  }

  /** After a copy of `hi` only copies of `hi` follow. */
  lemma InFlightLast(channel: seq<Body>, rest: seq<Body>, lo: Body, hi: Body, db: Database)
    requires InFlight(channel, lo, hi, db) && channel == [hi] + rest && hi.DatabaseDescription?
    requires InFlight(rest, lo, hi, db)
    ensures InFlight(rest, hi, hi, db)
  {
    forall q: nat {:trigger IsCopy(rest, q, hi, hi)} | q < |rest| ensures IsCopy(rest, q, hi, hi) {
      assert Stays(channel, 0, q + 1, hi) && rest[q] == channel[q + 1];
    }
  }

  lemma InFlightTail(channel: seq<Body>, lo: Body, hi: Body, db: Database)
    requires InFlight(channel, lo, hi, db) && channel != []
    ensures InFlight(channel[1..], lo, hi, db)
    ensures channel[0] == hi && hi.DatabaseDescription? ==> InFlight(channel[1..], hi, hi, db)
  {
    InFlightDrop(channel, 0, lo, hi, db);
    assert channel[..0] + channel[1..] == channel[1..];
    if channel[0] == hi && hi.DatabaseDescription? {
      InFlightLast(channel, channel[1..], lo, hi, db);
    }
  }

  lemma InFlightPlain(channel: seq<Body>, packets: seq<Body>, lo: Body, hi: Body, db: Database)
    requires InFlight(channel, lo, hi, db) && Plain(packets, db)
    ensures InFlight(channel + packets, lo, hi, db)
  {
    var all := channel + packets;
    forall q: nat {:trigger IsCopy(all, q, lo, hi)} | q < |all| ensures IsCopy(all, q, lo, hi) {
      assert q < |channel| ==> IsCopy(channel, q, lo, hi);
    }
    forall q: nat, r: nat {:trigger Stays(all, q, r, hi)} | q < r < |all| ensures Stays(all, q, r, hi) {
      assert r < |channel| ==> Stays(channel, q, r, hi);
    }
    forall q: nat {:trigger Answerable(all, q, db)} | q < |all| ensures Answerable(all, q, db) {
      assert q < |channel| ==> Answerable(channel, q, db);
    }
  }

  lemma InFlightRepeat(channel: seq<Body>, lo: Body, hi: Body, db: Database)
    requires InFlight(channel, lo, hi, db) && hi.DatabaseDescription?
    ensures InFlight(channel + [hi], lo, hi, db)
  {
    var all := channel + [hi];
    forall q: nat {:trigger IsCopy(all, q, lo, hi)} | q < |all| ensures IsCopy(all, q, lo, hi) {
      assert q < |channel| ==> IsCopy(channel, q, lo, hi);
    }
    forall q: nat, r: nat {:trigger Stays(all, q, r, hi)} | q < r < |all| ensures Stays(all, q, r, hi) {
      assert r < |channel| ==> Stays(channel, q, r, hi);
    }
    forall q: nat {:trigger Answerable(all, q, db)} | q < |all| ensures Answerable(all, q, db) {
      assert q < |channel| ==> Answerable(channel, q, db);
    }
  }

  lemma InFlightNext(channel: seq<Body>, hi: Body, next: Body, db: Database)
    requires InFlight(channel, hi, hi, db) && next.DatabaseDescription?
    ensures InFlight(channel + [next], hi, next, db)
  {
    var all := channel + [next];
    forall q: nat {:trigger IsCopy(all, q, hi, next)} | q < |all| ensures IsCopy(all, q, hi, next) {
      assert q < |channel| ==> IsCopy(channel, q, hi, hi);
    }
    forall q: nat, r: nat {:trigger Stays(all, q, r, next)} | q < r < |all| ensures Stays(all, q, r, next) {
      if r < |channel| {
        assert IsCopy(channel, q, hi, hi) && IsCopy(channel, r, hi, hi);
      }
    }
    forall q: nat {:trigger Answerable(all, q, db)} | q < |all| ensures Answerable(all, q, db) {
      assert q < |channel| ==> Answerable(channel, q, db);
    }
  }

  lemma InFlightGrow(channel: seq<Body>, lo: Body, hi: Body, db: Database, more: Database)
    requires InFlight(channel, lo, hi, db) && db.Keys <= more.Keys
    ensures InFlight(channel, lo, hi, more)
  {
    forall q: nat {:trigger Answerable(channel, q, more)} | q < |channel| ensures Answerable(channel, q, more) {
      assert Answerable(channel, q, db);
    }
  }

  lemma InFlightHead(channel: seq<Body>, lo: Body, hi: Body, db: Database)
    requires InFlight(channel, lo, hi, db) && channel != []
    ensures RequestKnown(channel[0], db) && (channel[0].DatabaseDescription? ==> channel[0] == lo || channel[0] == hi)
  {
    assert IsCopy(channel, 0, lo, hi) && Answerable(channel, 0, db);
  }

  // --------------------------------------------------------------------------- invariant

  /** The page, sequence and state of one side agree. */
  ghost predicate PageInvariant(x: Side, sequence: nat) {
    && x.e.offset == PageEnd(|x.e.summary|, ChunkSize(x.e.mtu), x.pages)
    && x.e.sequence == sequence
    && (x.up ==> x.e.lastDd == Some(Page(x.e.summary, x.e.mtu, x.e.master, sequence, x.pages)))
    && (!x.up ==> x.pages == 0 && x.e.summary == [] && x.e.requests == map[] && x.e.retransmit == map[])
    && (if x.pages == 0 then x.e.state == ExStart else CanExchange(x.e))
  }

  /** Its summary can be requested, and what it accepted of its peer's is requested or covered. */
  ghost predicate ListInvariant(x: Side, peer: seq<LsaHeader>) {
    && WellKeyed(x.db)
    && UniqueKeys(x.e.summary) && |x.e.summary| <= OSPF_DATABASE_LIMIT
    && (forall h :: h in x.e.summary ==> h.key in x.db)
    && (x.e.state == Full ==> x.e.requests == map[])
    && x.accepted <= peer
    && RequestsAccepted(x.e.requests, x.accepted)
    && Covered(x.accepted, x.e.requests, x.seen)
  }

  /** What one side keeps by itself, given its sequence and the summary its peer is describing. */
  ghost predicate SideInvariant(x: Side, sequence: nat, peer: seq<LsaHeader>) {
    PageInvariant(x, sequence) && ListInvariant(x, peer)
  }

  /** Sequence number of the last description each side sent. */
  ghost function MasterSequence(n: Net): nat { After(n.base, n.m.pages) }

  ghost function SlaveSequence(n: Net): nat {
    if n.s.pages == 0 then n.slaveBase else After(n.base, n.s.pages - 1)
  }

  ghost predicate Finished(x: Side) {
    x.e.state == Loading || x.e.state == Full
  }

  ghost predicate Lockstep(n: Net) {
    && n.s.pages - 1 <= n.m.pages <= n.s.pages
    && (n.s.pages > 0 ==> (Finished(n.s) <==> Complete(n, n.s.pages)))
    && (n.m.pages > 0 && n.m.pages == n.s.pages ==> !Complete(n, n.s.pages))
    && (Finished(n.m) ==> n.m.pages == n.s.pages - 1 && Complete(n, n.s.pages))
    && |n.m.accepted| == SlaveEnd(n, if Finished(n.m) then n.s.pages else n.m.pages)
    && |n.s.accepted| == MasterEnd(n, if n.s.pages == 0 then 0 else n.s.pages - 1)
  }

  ghost predicate ToSlave(n: Net) {
    && InFlight(n.toS, MasterPage(n, if n.s.pages == 0 then 0 else n.s.pages - 1), MasterPage(n, n.m.pages), n.s.db)
    && (!n.m.up ==> n.toS == [] && n.s.pages == 0)
  }

  ghost predicate ToMaster(n: Net) {
    && InFlight(n.toM, SlavePage(n, n.m.pages), SlavePage(n, n.s.pages), n.m.db)
    && (!n.s.up ==> n.toM == [] && n.s.pages == 0)
  }

  ghost predicate Invariant(n: Net) {
    && n.m.e.master && !n.s.e.master && n.m.e.mtu == n.s.e.mtu
    && SideInvariant(n.m, MasterSequence(n), n.s.e.summary)
    && SideInvariant(n.s, SlaveSequence(n), n.m.e.summary)
    && Lockstep(n)
    && ToSlave(n)
    && ToMaster(n)
  }

  // ------------------------------------------------------ steps that leave the pages alone

  /** What a side keeps when it neither starts nor takes a description. */
  ghost predicate SamePages(x: Side, y: Side) {
    && y.up == x.up && y.pages == x.pages && y.accepted == x.accepted
    && y.e.master == x.e.master && y.e.mtu == x.e.mtu && y.e.sequence == x.e.sequence
    && y.e.summary == x.e.summary && y.e.offset == x.e.offset && y.e.lastDd == x.e.lastDd
    && (Finished(x) <==> Finished(y)) && (x.e.state == Exchange <==> y.e.state == Exchange)
    && x.db.Keys <= y.db.Keys
  }

  lemma AnswersArePlain(e: Endpoint, keys: seq<Key>, packets: seq<Body>, db: Database, now: nat, peer: Database)
    requires Plain(packets, peer) && forall k :: k in keys ==> k in db
    ensures Plain(AnswerRequests(e, keys, packets, db, now).packets, peer)
    decreases |keys|
  {
    if keys != [] {
      var f := Flood(e, db[keys[0]], now);
      AnswersArePlain(f.endpoint, keys[1..], packets + (if f.body.Some? then [f.body.value] else []), db, now, peer);
    }
  }

  lemma UpdatesArePlain(f: Intake, lsas: seq<Lsa>, db: Database, now: nat, peer: Database)
    requires Plain(f.packets, peer)
    ensures Plain(TakeUpdates(f, lsas, db, now).packets, peer)
    decreases |lsas|
  {
    if lsas != [] {
      UpdatesArePlain(TakeUpdate(f, lsas[0], db, now), lsas[1..], db, now, peer);
    }
  }

  lemma DueUpdatesArePlain(keys: seq<Key>, n: nat, pending: map<Key, Pending>, now: nat, peer: Database)
    requires n <= |keys| && forall k :: k in keys ==> k in pending
    ensures Plain(DueUpdates(keys, n, pending, now), peer)
  {
  }

  /** A side only asks for keys its peer can answer. */
  lemma RequestsArePlain(e: Endpoint, accepted: seq<LsaHeader>, peer: seq<LsaHeader>, db: Database)
    requires RequestsAccepted(e.requests, accepted) && accepted <= peer
    requires forall h :: h in peer ==> h.key in db
    ensures Plain(RequestPackets(e), db)
  {
  }

  lemma UpdateLists(x: Side, lsas: seq<Lsa>, now: nat, peer: seq<LsaHeader>, db: Database)
    requires ListInvariant(x, peer)
    ensures var f := TakeUpdates(Intake(x.e, [], [], []), lsas, x.db, now);
            && RequestsAccepted(f.endpoint.requests, x.accepted)
            && Covered(x.accepted, f.endpoint.requests, x.seen + HeaderSet(x.db) + OfferedHeaders(f.advertisements))
            && Plain(f.packets, db)
  {
    var f0 := Intake(x.e, [], [], []);
    var seen := x.seen + HeaderSet(x.db);
    CoveredMonotone(x.accepted, x.e.requests, x.seen, seen);
    UpdateAll(f0, lsas, x.db, now, x.accepted, seen);
    UpdatesArePlain(f0, lsas, x.db, now, db);
  }

  /** What an update makes of a side. */
  lemma UpdateSide(x: Side, lsas: seq<Lsa>, now: nat)
    requires x.up && CanExchange(x.e) && x.e.offset <= |x.e.summary|
    ensures var r := DeliverSide(x, LinkStateUpdate(lsas), now);
            var f := TakeUpdates(Intake(x.e, [], [], []), lsas, x.db, now);
            && r.side == Updated(x, f.endpoint.requests, f.endpoint.retransmit,
                                 x.seen + HeaderSet(x.db) + OfferedHeaders(f.advertisements))
            && r.packets == f.packets + AckPackets(f.acks, x.e.mtu)
  {
    TakeUpdatesFrame(Intake(x.e, [], [], []), lsas, x.db, now);
  }

  ghost function Updated(x: Side, requests: map<Key, LsaHeader>, retransmit: map<Key, Pending>,
                         seen: set<LsaHeader>): Side
  {
    x.(e := x.e.(requests := requests, retransmit := retransmit,
                 state := if x.e.state == Loading && requests == map[] then Full else x.e.state),
       seen := seen)
  }

  lemma UpdatedKeeps(x: Side, requests: map<Key, LsaHeader>, retransmit: map<Key, Pending>, seen: set<LsaHeader>,
                     sequence: nat,
                     peer: seq<LsaHeader>)
    requires SideInvariant(x, sequence, peer) && x.up && CanExchange(x.e)
    requires RequestsAccepted(requests, x.accepted) && Covered(x.accepted, requests, seen)
    requires x.e.state == Full ==> requests == map[]
    ensures SideInvariant(Updated(x, requests, retransmit, seen), sequence, peer)
    ensures SamePages(x, Updated(x, requests, retransmit, seen))
  {
  }

  lemma UpdatePackets(packets: seq<Body>, acks: seq<LsaHeader>, mtu: nat, db: Database)
    requires Plain(packets, db)
    ensures Plain(packets + AckPackets(acks, mtu), db)
  {
  }

  lemma DeliverUpdate(x: Side, lsas: seq<Lsa>, now: nat, sequence: nat, peer: seq<LsaHeader>, db: Database)
    requires SideInvariant(x, sequence, peer) && x.up && CanExchange(x.e)
    ensures var r := DeliverSide(x, LinkStateUpdate(lsas), now);
            SideInvariant(r.side, sequence, peer) && SamePages(x, r.side) && Plain(r.packets, db)
  {
    var f := TakeUpdates(Intake(x.e, [], [], []), lsas, x.db, now);
    UpdateSide(x, lsas, now);
    TakeUpdatesFrame(Intake(x.e, [], [], []), lsas, x.db, now);
    UpdateLists(x, lsas, now, peer, db);
    UpdatePackets(f.packets, f.acks, x.e.mtu, db);
    UpdatedKeeps(x, f.endpoint.requests, f.endpoint.retransmit,
                 x.seen + HeaderSet(x.db) + OfferedHeaders(f.advertisements),
                 sequence, peer);
  }

  /** Requests, updates and acknowledgments move neither the pages nor the sequence. */
  lemma DeliverPlain(x: Side, body: Body, now: nat, sequence: nat, peer: seq<LsaHeader>, db: Database)
    requires SideInvariant(x, sequence, peer) && x.up
    requires !body.DatabaseDescription? && RequestKnown(body, x.db)
    ensures var r := DeliverSide(x, body, now);
            SideInvariant(r.side, sequence, peer) && SamePages(x, r.side) && Plain(r.packets, db)
  {
    var r := DeliverSide(x, body, now);
    CoveredMonotone(x.accepted, x.e.requests, x.seen, r.side.seen);
    match body {
      case LinkStateRequest(keys) =>
        AnswerRequestsFrame(x.e, keys, [], x.db, now);
        AnswersArePlain(x.e, keys, [], x.db, now, db);
      case LinkStateUpdate(lsas) =>
        if CanExchange(x.e) {
          DeliverUpdate(x, lsas, now, sequence, peer, db);
        }
      case LinkStateAck(headers) =>
        TakeAcksFrame(x.e, headers);
      case Hello =>
    }
  }

  lemma FireKeepsSide(x: Side, now: nat, sequence: nat, peer: seq<LsaHeader>)
    requires SideInvariant(x, sequence, peer) && x.up
    ensures var r := FireSide(x, now);
            SideInvariant(r.side, sequence, peer) && SamePages(x, r.side)
  {
  }

  lemma FirePackets(x: Side, now: nat, sequence: nat, peer: seq<LsaHeader>, db: Database)
    requires PageInvariant(x, sequence) && RequestsAccepted(x.e.requests, x.accepted) && x.accepted <= peer && x.up
    requires forall h :: h in peer ==> h.key in db
    ensures Repeats(FireSide(x, now).packets, Page(x.e.summary, x.e.mtu, x.e.master, sequence, x.pages), db)
  {
    RequestsArePlain(x.e, x.accepted, peer, db);
    var keys := SortedKeys(x.e.retransmit.Keys);
    DueUpdatesArePlain(keys, |keys|, x.e.retransmit, now, db);
  }

  lemma FirePlain(x: Side, now: nat, sequence: nat, peer: seq<LsaHeader>, db: Database)
    requires SideInvariant(x, sequence, peer) && x.up
    requires forall h :: h in peer ==> h.key in db
    ensures var r := FireSide(x, now);
            SideInvariant(r.side, sequence, peer) && SamePages(x, r.side)
    ensures Repeats(FireSide(x, now).packets, Page(x.e.summary, x.e.mtu, x.e.master, sequence, x.pages), db)
  {
    FireKeepsSide(x, now, sequence, peer);
    FirePackets(x, now, sequence, peer, db);
  }

  lemma FloodPlain(x: Side, lsa: Lsa, now: nat, sequence: nat, peer: seq<LsaHeader>, db: Database)
    requires SideInvariant(x, sequence, peer) && x.up
    ensures var r := FloodSide(x, lsa, now);
            SideInvariant(r.side, sequence, peer) && SamePages(x, r.side) && Plain(r.packets, db)
  {
  }

  lemma SameLockstep(n: Net, n': Net)
    requires Lockstep(n) && SamePages(n.m, n'.m) && SamePages(n.s, n'.s)
    ensures Lockstep(n')
  {
  }

  lemma SameToSlave(n: Net, n': Net)
    requires ToSlave(n) && SamePages(n.m, n'.m) && SamePages(n.s, n'.s) && n'.base == n.base && n'.toS == n.toS
    ensures ToSlave(n')
  {
    var lo := if n.s.pages == 0 then 0 else n.s.pages - 1;
    assert MasterPage(n', lo) == MasterPage(n, lo) && MasterPage(n', n.m.pages) == MasterPage(n, n.m.pages);
    InFlightGrow(n.toS, MasterPage(n, lo), MasterPage(n, n.m.pages), n.s.db, n'.s.db);
  }

  lemma SameToMaster(n: Net, n': Net)
    requires ToMaster(n) && SamePages(n.m, n'.m) && SamePages(n.s, n'.s) && n'.base == n.base
    requires n'.slaveBase == n.slaveBase && n'.toM == n.toM
    ensures ToMaster(n')
  {
    assert SlavePage(n', n.m.pages) == SlavePage(n, n.m.pages) && SlavePage(n', n.s.pages) == SlavePage(n, n.s.pages);
    InFlightGrow(n.toM, SlavePage(n, n.m.pages), SlavePage(n, n.s.pages), n.m.db, n'.m.db);
  }

  /** The invariant survives when a side moves without touching its pages. */
  lemma KeepsPages(n: Net, n': Net)
    requires Invariant(n) && SamePages(n.m, n'.m) && SamePages(n.s, n'.s)
    requires n'.base == n.base && n'.slaveBase == n.slaveBase
    requires SideInvariant(n'.m, MasterSequence(n), n.s.e.summary)
    requires SideInvariant(n'.s, SlaveSequence(n), n.m.e.summary)
    requires ToMaster(n.(toM := n'.toM)) && ToSlave(n.(toS := n'.toS))
    ensures Invariant(n')
  {
    SameLockstep(n, n');
    SameToSlave(n.(toS := n'.toS), n');
    SameToMaster(n.(toM := n'.toM), n');
    assert MasterSequence(n') == MasterSequence(n) && SlaveSequence(n') == SlaveSequence(n);
    assert n'.m.e.master && !n'.s.e.master && n'.m.e.mtu == n'.s.e.mtu;
    assert SideInvariant(n'.m, MasterSequence(n'), n'.s.e.summary);
    assert SideInvariant(n'.s, SlaveSequence(n'), n'.m.e.summary);
  }

  // ------------------------------------------------------------ taking a description

  /** Taking the next headers of the peer's summary keeps the lists in order. */
  lemma AcceptsHeaders(x: Side, peer: seq<LsaHeader>, end: nat, e: Endpoint)
    requires ListInvariant(x, peer) && |x.accepted| <= end <= |peer|
    requires UniqueKeys(peer) && |peer| <= OSPF_DATABASE_LIMIT
    requires e.requests == x.e.requests
    ensures var page := peer[|x.accepted|..end];
            var r := RequestHeaders(e, page, x.db);
            && x.accepted + page == peer[..end]
            && RequestsAccepted(r.requests, x.accepted + page)
            && Covered(x.accepted + page, r.requests, x.seen + HeaderSet(x.db))
  {
    var page := peer[|x.accepted|..end];
    assert x.accepted + page == peer[..end];
    CoveredMonotone(x.accepted, x.e.requests, x.seen, x.seen + HeaderSet(x.db));
    RequestPage(e, page, x.db, x.accepted, x.seen + HeaderSet(x.db));
  }

  /** The fields of a side that has just cut its next page. */
  ghost predicate HasCut(x: Side, y: Side, sequence: nat) {
    && x.e.offset <= |x.e.summary|
    && y.up == x.up && y.db == x.db && y.pages == x.pages + 1
    && y.e.summary == x.e.summary && y.e.mtu == x.e.mtu && y.e.master == x.e.master
    && y.e.sequence == sequence && CanExchange(y.e)
    && y.e.offset == NextOffset(x.e.offset, ChunkSize(x.e.mtu), |x.e.summary|)
    && y.e.lastDd == Some(DatabaseDescription(x.e.mtu, OPTIONS,
         DdFlags(false, y.e.offset < |x.e.summary|, x.e.master, false), sequence,
         x.e.summary[x.e.offset..y.e.offset]))
  }

  lemma CutPage(x: Side, y: Side, before: nat, sequence: nat)
    requires PageInvariant(x, before) && x.up && HasCut(x, y, sequence)
    ensures PageInvariant(y, sequence)
  {
  }

  lemma MasterCuts(x: Side, d: Body, now: nat)
    requires x.up && x.e.master && x.e.offset <= |x.e.summary|
    requires d.DatabaseDescription? && CutsPage(x.e, d)
    ensures var r := DeliverSide(x, d, now);
            && HasCut(x, r.side, Wrap32(x.e.sequence + 1))
            && r.side.e.state == Exchange
            && r.packets == [r.side.e.lastDd.value]
            && r.side.e.requests == RequestHeaders(x.e.(state := Exchange), d.headers, x.db).requests
            && r.side.accepted == x.accepted + d.headers
            && r.side.seen == x.seen + HeaderSet(x.db)
  {
    RequestHeadersFrame(x.e.(state := Exchange), d.headers, x.db);
    RequestHeadersFrame(x.e, d.headers, x.db);
    if x.e.state != ExStart {
      assert x.e.(state := Exchange) == x.e;
    }
  }

  lemma MasterFinishes(x: Side, d: Body, now: nat)
    requires x.up && x.e.master && x.e.offset <= |x.e.summary|
    requires d.DatabaseDescription? && Proceeds(x.e, d) && !CutsPage(x.e, d)
    ensures var r := DeliverSide(x, d, now);
            var q := RequestHeaders(x.e, d.headers, x.db).requests;
            && r.side == x.(e := r.side.e, accepted := x.accepted + d.headers, seen := x.seen + HeaderSet(x.db))
            && r.side.e == x.e.(state := if q == map[] then Full else Loading, requests := q,
                                requestDue := r.side.e.requestDue)
            && r.packets == (if q == map[] then [] else RequestPackets(r.side.e))
  {
    RequestHeadersFrame(x.e, d.headers, x.db);
    assert OfferedHeaders([]) == {};
  }

  lemma SlaveCuts(x: Side, d: Body, now: nat)
    requires x.up && !x.e.master && x.e.offset <= |x.e.summary|
    requires d.DatabaseDescription? && Proceeds(x.e, d)
    ensures var r := DeliverSide(x, d, now);
            && HasCut(x, r.side, d.sequence)
            && (Finished(r.side) <==> r.side.e.offset == |x.e.summary| && !d.flags.more)
            && r.side.e.requests == RequestHeaders(x.e, d.headers, x.db).requests
            && (r.side.e.state == Full ==> r.side.e.requests == map[])
            && r.packets == [r.side.e.lastDd.value]
              + (if r.side.e.state == Loading then RequestPackets(r.side.e) else [])
            && r.side.accepted == x.accepted + d.headers
            && r.side.seen == x.seen + HeaderSet(x.db)
  {
    RequestHeadersFrame(x.e, d.headers, x.db);
  }

  /** A repeated description changes nothing; a slave repeats its answer. */
  lemma Repeated(x: Side, d: Body, now: nat, sequence: nat, peer: seq<LsaHeader>)
    requires SideInvariant(x, sequence, peer) && x.up && d.DatabaseDescription? && Readable(x.e, d)
    requires if x.e.state == ExStart then !Negotiates(x.e, d) else Duplicate(x.e, d)
    ensures var r := DeliverSide(x, d, now);
            && SideInvariant(r.side, sequence, peer) && SamePages(x, r.side)
            && r.packets == (if x.e.state != ExStart && !x.e.master then [x.e.lastDd.value] else [])
  {
    CoveredMonotone(x.accepted, x.e.requests, x.seen, DeliverSide(x, d, now).side.seen);
  }

  /** The state after the master has taken the head of its channel. */
  ghost function MasterTakes(n: Net): Net
    requires n.toM != []
  {
    Step(n, Deliver(true))
  }

  ghost function SlaveTakes(n: Net): Net
    requires n.toS != []
  {
    Step(n, Deliver(false))
  }

  /** What a description means to the master: nothing new, or the slave's next page. */
  ghost predicate MasterExpects(n: Net, d: Body)
    requires d.DatabaseDescription?
  {
    || (if n.m.e.state == ExStart then !Negotiates(n.m.e, d) else Duplicate(n.m.e, d))
    || (&& d == SlavePage(n, n.s.pages) && n.s.pages == n.m.pages + 1 && !Finished(n.m)
        && (n.m.pages == 0 ==> Negotiates(n.m.e, d)) && (n.m.pages > 0 ==> Proceeds(n.m.e, d)))
  }

  lemma AfterBack(base: nat, t: nat)
    requires t > 0
    ensures Wrap32(After(base, t) - 1) == After(base, t - 1)
  {
  }

  lemma AfterNext(base: nat, t: nat)
    ensures Wrap32(After(base, t) + 1) == After(base, t + 1)
  {
  }

  /** A page the master has answered already: its sequence is one behind. */
  lemma OldPage(x: Side, d: Body, before: nat, summary: seq<LsaHeader>)
    requires x.e.master && PageInvariant(x, x.e.sequence) && d == Page(summary, x.e.mtu, false, before, x.pages)
    requires x.pages > 0 ==> before == Wrap32(x.e.sequence - 1)
    ensures Readable(x.e, d) && (if x.e.state == ExStart then !Negotiates(x.e, d) else Duplicate(x.e, d))
  {
  }

  /** The next page of the slave answers the master's last description. */
  lemma NextPage(x: Side, d: Body, summary: seq<LsaHeader>)
    requires x.e.master && PageInvariant(x, x.e.sequence) && !Finished(x) && x.e.sequence < W32
    requires d == Page(summary, x.e.mtu, false, x.e.sequence, x.pages + 1)
    ensures Readable(x.e, d) && (x.pages == 0 ==> Negotiates(x.e, d)) && (x.pages > 0 ==> Proceeds(x.e, d))
  {
  }

  lemma MasterSeesOld(n: Net)
    requires Invariant(n) && n.m.up
    ensures Readable(n.m.e, SlavePage(n, n.m.pages)) && MasterExpects(n, SlavePage(n, n.m.pages))
  {
    if n.m.pages == 0 {
      OldPage(n.m, SlavePage(n, 0), n.slaveBase, n.s.e.summary);
    } else {
      AfterBack(n.base, n.m.pages);
      OldPage(n.m, SlavePage(n, n.m.pages), After(n.base, n.m.pages - 1), n.s.e.summary);
    }
  }

  lemma MasterSeesNew(n: Net)
    requires Invariant(n) && n.m.up && n.s.pages == n.m.pages + 1 && !Finished(n.m)
    ensures Readable(n.m.e, SlavePage(n, n.s.pages)) && MasterExpects(n, SlavePage(n, n.s.pages))
  {
    NextPage(n.m, SlavePage(n, n.s.pages), n.s.e.summary);
  }

  /** A master that has finished has seen the slave's last page. */
  lemma LastPage(x: Side, d: Body, summary: seq<LsaHeader>, t: nat)
    requires x.e.master && Finished(x) && d == Page(summary, x.e.mtu, false, x.e.sequence, t) && t > 0
    ensures Readable(x.e, d) && Duplicate(x.e, d)
  {
  }

  /** Every description reaching the master is a repeat or the slave's next page. */
  lemma MasterSees(n: Net)
    requires Invariant(n) && n.m.up && n.toM != [] && n.toM[0].DatabaseDescription?
    ensures Readable(n.m.e, n.toM[0]) && MasterExpects(n, n.toM[0])
  {
    InFlightHead(n.toM, SlavePage(n, n.m.pages), SlavePage(n, n.s.pages), n.m.db);
    if n.toM[0] == SlavePage(n, n.m.pages) {
      MasterSeesOld(n);
    } else if Finished(n.m) {
      LastPage(n.m, n.toM[0], n.s.e.summary, n.s.pages);
    } else {
      MasterSeesNew(n);
    }
  }

  /** Every description reaching the slave is a repeat or the master's next page. */
  lemma SlaveSees(n: Net)
    requires Invariant(n) && n.s.up && n.toS != [] && n.toS[0].DatabaseDescription?
    ensures Readable(n.s.e, n.toS[0])
    ensures var d := n.toS[0];
            || (n.s.pages > 0 && Duplicate(n.s.e, d))
            || (&& d == MasterPage(n, n.m.pages) && n.m.pages == n.s.pages && !Finished(n.s)
                && (n.s.pages == 0 ==> Negotiates(n.s.e, d)) && (n.s.pages > 0 ==> Proceeds(n.s.e, d)))
  {
    InFlightHead(n.toS, MasterPage(n, if n.s.pages == 0 then 0 else n.s.pages - 1), MasterPage(n, n.m.pages), n.s.db);
    WrapStep(n.base + n.s.pages - 1);
  }

  /** The header list of slave page `t` is the next stretch of its summary. */
  lemma NextSlaveHeaders(n: Net)
    requires Invariant(n) && n.s.pages == n.m.pages + 1 && !Finished(n.m)
    ensures SlavePage(n, n.s.pages).headers == n.s.e.summary[|n.m.accepted|..SlaveEnd(n, n.s.pages)]
    ensures |n.m.accepted| <= SlaveEnd(n, n.s.pages)
  {
  }

  lemma NextMasterHeaders(n: Net)
    requires Invariant(n) && n.m.pages == n.s.pages && n.m.pages > 0
    ensures MasterPage(n, n.m.pages).headers == n.m.e.summary[|n.s.accepted|..MasterEnd(n, n.m.pages)]
    ensures |n.s.accepted| <= MasterEnd(n, n.m.pages)
  {
  }

  lemma MasterCutsPages(x: Side, d: Body, now: nat, base: nat)
    requires x.up && x.e.master && PageInvariant(x, After(base, x.pages))
    requires d.DatabaseDescription? && CutsPage(x.e, d)
    ensures var r := DeliverSide(x, d, now);
            && HasCut(x, r.side, After(base, x.pages + 1))
            && PageInvariant(r.side, After(base, x.pages + 1))
            && r.packets == [r.side.e.lastDd.value]
            && r.side.e.state == Exchange
  {
    MasterCuts(x, d, now);
    AfterNext(base, x.pages);
    CutPage(x, DeliverSide(x, d, now).side, After(base, x.pages), After(base, x.pages + 1));
  }

  lemma MasterCutsLists(n: Net)
    requires Invariant(n) && n.m.up && n.toM != [] && n.toM[0] == SlavePage(n, n.s.pages)
    requires n.s.pages == n.m.pages + 1 && !Finished(n.m) && CutsPage(n.m.e, n.toM[0])
    ensures var r := DeliverSide(n.m, n.toM[0], n.now);
            ListInvariant(r.side, n.s.e.summary) && |r.side.accepted| == SlaveEnd(n, n.s.pages)
  {
    MasterCuts(n.m, n.toM[0], n.now);
    NextSlaveHeaders(n);
    AcceptsHeaders(n.m, n.s.e.summary, SlaveEnd(n, n.s.pages), n.m.e.(state := Exchange));
  }

  /** The side a master becomes by taking the slave's next page and cutting its own. */
  lemma MasterCutsSide(n: Net)
    requires Invariant(n) && n.m.up && n.toM != [] && n.toM[0] == SlavePage(n, n.s.pages)
    requires n.s.pages == n.m.pages + 1 && !Finished(n.m) && CutsPage(n.m.e, n.toM[0])
    ensures var r := DeliverSide(n.m, n.toM[0], n.now);
            && HasCut(n.m, r.side, After(n.base, n.m.pages + 1))
            && SideInvariant(r.side, After(n.base, n.m.pages + 1), n.s.e.summary)
            && r.packets == [r.side.e.lastDd.value]
            && r.side.e.state == Exchange
            && |r.side.accepted| == SlaveEnd(n, n.s.pages)
  {
    MasterCutsPages(n.m, n.toM[0], n.now, n.base);
    MasterCutsLists(n);
  }

  /** Channels after the master has moved on to page `n.s.pages`. */
  lemma MasterCutsChannels(n: Net, n': Net)
    requires Invariant(n) && n.m.up && n.toM != [] && n.toM[0] == SlavePage(n, n.s.pages)
    requires n.s.pages == n.m.pages + 1
    requires HasCut(n.m, n'.m, After(n.base, n.m.pages + 1)) && PageInvariant(n'.m, After(n.base, n.m.pages + 1))
    requires n' == n.(m := n'.m, toM := n.toM[1..], toS := n.toS + [n'.m.e.lastDd.value])
    ensures ToMaster(n') && ToSlave(n')
  {
    InFlightTail(n.toM, SlavePage(n, n.m.pages), SlavePage(n, n.s.pages), n.m.db);
    assert SlavePage(n', n'.m.pages) == SlavePage(n, n.s.pages);
    assert n'.m.e.lastDd.value == MasterPage(n', n'.m.pages);
    assert MasterPage(n', n'.s.pages - 1) == MasterPage(n, n.m.pages);
    InFlightNext(n.toS, MasterPage(n, n.m.pages), MasterPage(n', n'.m.pages), n.s.db);
  }

  lemma MasterCutLands(n: Net, r: Reply)
    requires Invariant(n) && n.m.up && n.toM != [] && n.toM[0] == SlavePage(n, n.s.pages)
    requires n.s.pages == n.m.pages + 1 && !Finished(n.m) && !Complete(n, n.s.pages)
    requires HasCut(n.m, r.side, After(n.base, n.m.pages + 1))
    requires SideInvariant(r.side, After(n.base, n.m.pages + 1), n.s.e.summary)
    requires r.packets == [r.side.e.lastDd.value] && r.side.e.state == Exchange
    requires |r.side.accepted| == SlaveEnd(n, n.s.pages)
    ensures Invariant(Moved(n.(toM := n.toM[1..]), true, r))
  {
    var n' := Moved(n.(toM := n.toM[1..]), true, r);
    MasterCutsChannels(n, n');
    assert Lockstep(n');
  }

  lemma MasterCutsPage(n: Net)
    requires Invariant(n) && n.m.up && n.toM != [] && n.toM[0] == SlavePage(n, n.s.pages)
    requires n.s.pages == n.m.pages + 1 && !Finished(n.m) && CutsPage(n.m.e, n.toM[0])
    requires !Complete(n, n.s.pages)
    ensures Invariant(MasterTakes(n))
  {
    MasterCutsSide(n);
    MasterCutLands(n, DeliverSide(n.m, n.toM[0], n.now));
  }

  lemma MasterCompletesSide(n: Net)
    requires Invariant(n) && n.m.up && n.toM != [] && n.toM[0] == SlavePage(n, n.s.pages)
    requires n.s.pages == n.m.pages + 1 && Proceeds(n.m.e, n.toM[0]) && !CutsPage(n.m.e, n.toM[0])
    ensures var r := DeliverSide(n.m, n.toM[0], n.now);
            && r.side == n.m.(e := r.side.e, accepted := r.side.accepted, seen := r.side.seen)
            && r.side.e == n.m.e.(state := r.side.e.state, requests := r.side.e.requests,
                                  requestDue := r.side.e.requestDue)
            && Finished(r.side)
            && SideInvariant(r.side, MasterSequence(n), n.s.e.summary)
            && Plain(r.packets, n.s.db)
            && |r.side.accepted| == SlaveEnd(n, n.s.pages)
  {
    var d := n.toM[0];
    MasterFinishes(n.m, d, n.now);
    var r := DeliverSide(n.m, d, n.now);
    NextSlaveHeaders(n);
    AcceptsHeaders(n.m, n.s.e.summary, SlaveEnd(n, n.s.pages), n.m.e);
    RequestsArePlain(r.side.e, r.side.accepted, n.s.e.summary, n.s.db);
  }

  lemma MasterCompleteLands(n: Net, r: Reply)
    requires Invariant(n) && n.toM != [] && n.s.pages == n.m.pages + 1 && Complete(n, n.s.pages)
    requires r.side == n.m.(e := r.side.e, accepted := r.side.accepted, seen := r.side.seen)
    requires r.side.e == n.m.e.(state := r.side.e.state, requests := r.side.e.requests,
                                requestDue := r.side.e.requestDue)
    requires Finished(r.side) && SideInvariant(r.side, MasterSequence(n), n.s.e.summary)
    requires Plain(r.packets, n.s.db) && |r.side.accepted| == SlaveEnd(n, n.s.pages)
    ensures Invariant(Moved(n.(toM := n.toM[1..]), true, r))
  {
    var n' := Moved(n.(toM := n.toM[1..]), true, r);
    InFlightTail(n.toM, SlavePage(n, n.m.pages), SlavePage(n, n.s.pages), n.m.db);
    InFlightPlain(n.toS, r.packets, MasterPage(n, n.s.pages - 1), MasterPage(n, n.m.pages), n.s.db);
    assert ToMaster(n') && ToSlave(n') && Lockstep(n');
  }

  lemma MasterCompletes(n: Net)
    requires Invariant(n) && n.m.up && n.toM != [] && n.toM[0] == SlavePage(n, n.s.pages)
    requires n.s.pages == n.m.pages + 1 && Proceeds(n.m.e, n.toM[0]) && !CutsPage(n.m.e, n.toM[0])
    requires Complete(n, n.s.pages)
    ensures Invariant(MasterTakes(n))
  {
    MasterCompletesSide(n);
    MasterCompleteLands(n, DeliverSide(n.m, n.toM[0], n.now));
  }

  /** The master goes on exactly as long as one side has headers left. */
  lemma MasterDecides(n: Net)
    requires Invariant(n) && n.m.up && n.s.pages == n.m.pages + 1 && !Finished(n.m)
    ensures var d := SlavePage(n, n.s.pages);
            (n.m.pages > 0 && Proceeds(n.m.e, d)) || (n.m.pages == 0 && Negotiates(n.m.e, d)) ==>
              (CutsPage(n.m.e, d) <==> !Complete(n, n.s.pages))
  {
  }

  /** The master takes the slave's next page. */
  lemma MasterNextPage(n: Net)
    requires Invariant(n) && n.m.up && n.toM != [] && n.toM[0] == SlavePage(n, n.s.pages)
    requires n.s.pages == n.m.pages + 1 && !Finished(n.m)
    requires if n.m.pages == 0 then Negotiates(n.m.e, n.toM[0]) else Proceeds(n.m.e, n.toM[0])
    ensures Invariant(MasterTakes(n))
  {
    MasterDecides(n);
    if CutsPage(n.m.e, n.toM[0]) {
      MasterCutsPage(n);
    } else {
      MasterCompletes(n);
    }
  }

  /** The master ignores a repeated description. */
  lemma MasterRepeats(n: Net)
    requires Invariant(n) && n.m.up && n.toM != [] && n.toM[0].DatabaseDescription?
    requires Readable(n.m.e, n.toM[0])
    requires if n.m.e.state == ExStart then !Negotiates(n.m.e, n.toM[0]) else Duplicate(n.m.e, n.toM[0])
    ensures Invariant(MasterTakes(n))
  {
    MasterTail(n);
    Repeated(n.m, n.toM[0], n.now, MasterSequence(n), n.s.e.summary);
    MasterPlain(n, n.toM[1..], DeliverSide(n.m, n.toM[0], n.now));
  }

  lemma MasterDeliversDd(n: Net)
    requires Invariant(n) && n.m.up && n.toM != [] && n.toM[0].DatabaseDescription?
    ensures Invariant(MasterTakes(n)) && !Restarts(n.m.e, n.toM[0], n.m.db)
  {
    MasterSees(n);
    if if n.m.e.state == ExStart then !Negotiates(n.m.e, n.toM[0]) else Duplicate(n.m.e, n.toM[0]) {
      MasterRepeats(n);
    } else {
      MasterNextPage(n);
    }
  }

  lemma MasterTail(n: Net)
    requires ToMaster(n) && n.toM != []
    ensures ToMaster(n.(toM := n.toM[1..])) && RequestKnown(n.toM[0], n.m.db)
  {
    InFlightHead(n.toM, SlavePage(n, n.m.pages), SlavePage(n, n.s.pages), n.m.db);
    InFlightTail(n.toM, SlavePage(n, n.m.pages), SlavePage(n, n.s.pages), n.m.db);
  }

  lemma MasterDeliversPlain(n: Net)
    requires Invariant(n) && n.toM != [] && !(n.m.up && n.toM[0].DatabaseDescription?)
    ensures Invariant(MasterTakes(n)) && !Restarts(n.m.e, n.toM[0], n.m.db)
  {
    var d := n.toM[0];
    MasterTail(n);
    if n.m.up {
      DeliverPlain(n.m, d, n.now, MasterSequence(n), n.s.e.summary, n.s.db);
      MasterPlain(n, n.toM[1..], DeliverSide(n.m, d, n.now));
    } else {
      KeepsPages(n, MasterTakes(n));
    }
  }

  lemma MasterDelivers(n: Net)
    requires Invariant(n) && n.toM != []
    ensures Invariant(MasterTakes(n)) && !Restarts(n.m.e, n.toM[0], n.m.db)
  {
    if n.m.up && n.toM[0].DatabaseDescription? {
      MasterDeliversDd(n);
    } else {
      MasterDeliversPlain(n);
    }
  }

  /** The master moves without touching its pages and sends only plain packets. */
  lemma MasterPlain(n: Net, toM: seq<Body>, r: Reply)
    requires Invariant(n) && n.m.up && ToMaster(n.(toM := toM))
    requires SamePages(n.m, r.side) && SideInvariant(r.side, MasterSequence(n), n.s.e.summary)
    requires Plain(r.packets, n.s.db)
    ensures Invariant(Moved(n.(toM := toM), true, r))
  {
    InFlightPlain(n.toS, r.packets, MasterPage(n, if n.s.pages == 0 then 0 else n.s.pages - 1),
                  MasterPage(n, n.m.pages), n.s.db);
    KeepsPages(n, Moved(n.(toM := toM), true, r));
  }

  lemma SlavePlain(n: Net, toS: seq<Body>, r: Reply)
    requires Invariant(n) && n.s.up && ToSlave(n.(toS := toS))
    requires SamePages(n.s, r.side) && SideInvariant(r.side, SlaveSequence(n), n.m.e.summary)
    requires Plain(r.packets, n.m.db)
    ensures Invariant(Moved(n.(toS := toS), false, r))
  {
    InFlightPlain(n.toM, r.packets, SlavePage(n, n.m.pages), SlavePage(n, n.s.pages), n.m.db);
    KeepsPages(n, Moved(n.(toS := toS), false, r));
  }

  // The slave's half of the same steps.

  lemma SlaveNegotiatesSide(n: Net)
    requires Invariant(n) && n.s.up && n.toS != [] && n.toS[0] == MasterPage(n, n.m.pages)
    requires n.m.pages == n.s.pages == 0 && Negotiates(n.s.e, n.toS[0])
    ensures var r := DeliverSide(n.s, n.toS[0], n.now);
            && HasCut(n.s, r.side, After(n.base, n.m.pages))
            && SideInvariant(r.side, After(n.base, n.m.pages), n.m.e.summary)
            && r.packets == [r.side.e.lastDd.value]
            && r.side.e.state == Exchange
            && |r.side.accepted| == MasterEnd(n, n.m.pages)
  {
  }

  lemma SlaveCutsPages(x: Side, d: Body, now: nat, before: nat)
    requires x.up && !x.e.master && PageInvariant(x, before)
    requires d.DatabaseDescription? && Proceeds(x.e, d)
    ensures var r := DeliverSide(x, d, now);
            && HasCut(x, r.side, d.sequence) && PageInvariant(r.side, d.sequence)
            && r.packets != [] && r.packets[0] == r.side.e.lastDd.value
            && (Finished(r.side) <==> r.side.e.offset == |x.e.summary| && !d.flags.more)
  {
    SlaveCuts(x, d, now);
    CutPage(x, DeliverSide(x, d, now).side, before, d.sequence);
  }

  lemma SlaveCutsLists(n: Net)
    requires Invariant(n) && n.s.up && n.toS != [] && n.toS[0] == MasterPage(n, n.m.pages)
    requires n.m.pages == n.s.pages > 0 && Proceeds(n.s.e, n.toS[0])
    ensures var r := DeliverSide(n.s, n.toS[0], n.now);
            && ListInvariant(r.side, n.m.e.summary) && |r.side.accepted| == MasterEnd(n, n.m.pages)
            && r.packets != [] && Plain(r.packets[1..], n.m.db)
  {
    var d := n.toS[0];
    SlaveCuts(n.s, d, n.now);
    var r := DeliverSide(n.s, d, n.now);
    NextMasterHeaders(n);
    AcceptsHeaders(n.s, n.m.e.summary, MasterEnd(n, n.m.pages), n.s.e);
    RequestsArePlain(r.side.e, r.side.accepted, n.m.e.summary, n.m.db);
  }

  lemma SlaveCutsSide(n: Net)
    requires Invariant(n) && n.s.up && n.toS != [] && n.toS[0] == MasterPage(n, n.m.pages)
    requires n.m.pages == n.s.pages > 0 && Proceeds(n.s.e, n.toS[0])
    ensures var r := DeliverSide(n.s, n.toS[0], n.now);
            && HasCut(n.s, r.side, After(n.base, n.m.pages))
            && SideInvariant(r.side, After(n.base, n.m.pages), n.m.e.summary)
            && r.packets != [] && r.packets[0] == r.side.e.lastDd.value && Plain(r.packets[1..], n.m.db)
            && |r.side.accepted| == MasterEnd(n, n.m.pages)
            && (Finished(r.side) <==> Complete(n, n.s.pages + 1))
  {
    SlaveCutsPages(n.s, n.toS[0], n.now, SlaveSequence(n));
    SlaveCutsLists(n);
  }

  /** Channels after the slave has answered master page `n.m.pages`. */
  lemma SlaveCutsChannels(n: Net, n': Net, plain: seq<Body>)
    requires Invariant(n) && n.m.up && n.s.up && n.toS != [] && n.toS[0] == MasterPage(n, n.m.pages)
    requires n.m.pages == n.s.pages && Plain(plain, n.m.db)
    requires HasCut(n.s, n'.s, After(n.base, n.m.pages)) && PageInvariant(n'.s, After(n.base, n.m.pages))
    requires n' == n.(s := n'.s, toS := n.toS[1..], toM := n.toM + [n'.s.e.lastDd.value] + plain)
    ensures ToMaster(n') && ToSlave(n')
  {
    InFlightTail(n.toS, MasterPage(n, if n.s.pages == 0 then 0 else n.s.pages - 1), MasterPage(n, n.m.pages), n.s.db);
    assert MasterPage(n', n'.s.pages - 1) == MasterPage(n, n.m.pages);
    assert n'.s.e.lastDd.value == SlavePage(n', n'.s.pages);
    assert SlavePage(n', n'.m.pages) == SlavePage(n, n.s.pages);
    InFlightNext(n.toM, SlavePage(n, n.s.pages), SlavePage(n', n'.s.pages), n.m.db);
    InFlightPlain(n.toM + [n'.s.e.lastDd.value], plain, SlavePage(n, n.s.pages), SlavePage(n', n'.s.pages), n.m.db);
  }

  lemma SlaveCutLands(n: Net, r: Reply)
    requires Invariant(n) && n.m.up && n.s.up && n.toS != [] && n.toS[0] == MasterPage(n, n.m.pages)
    requires n.m.pages == n.s.pages
    requires HasCut(n.s, r.side, After(n.base, n.m.pages))
    requires SideInvariant(r.side, After(n.base, n.m.pages), n.m.e.summary)
    requires r.packets != [] && r.packets[0] == r.side.e.lastDd.value && Plain(r.packets[1..], n.m.db)
    requires |r.side.accepted| == MasterEnd(n, n.m.pages)
    requires Finished(r.side) <==> Complete(n, n.s.pages + 1)
    ensures Invariant(Moved(n.(toS := n.toS[1..]), false, r))
  {
    var n' := Moved(n.(toS := n.toS[1..]), false, r);
    assert n.toM + r.packets == n.toM + [r.side.e.lastDd.value] + r.packets[1..];
    SlaveCutsChannels(n, n', r.packets[1..]);
    assert Lockstep(n');
  }

  lemma SlaveFirstPage(n: Net)
    requires Invariant(n) && n.m.up && n.s.up && n.toS != [] && n.toS[0] == MasterPage(n, n.m.pages)
    requires n.m.pages == n.s.pages == 0 && !Finished(n.s) && Negotiates(n.s.e, n.toS[0])
    ensures Invariant(SlaveTakes(n))
  {
    SlaveNegotiatesSide(n);
    SlaveCutLands(n, DeliverSide(n.s, n.toS[0], n.now));
  }

  lemma SlaveNextPage(n: Net)
    requires Invariant(n) && n.m.up && n.s.up && n.toS != [] && n.toS[0] == MasterPage(n, n.m.pages)
    requires n.m.pages == n.s.pages > 0 && !Finished(n.s) && Proceeds(n.s.e, n.toS[0])
    ensures Invariant(SlaveTakes(n))
  {
    SlaveCutsSide(n);
    SlaveCutLands(n, DeliverSide(n.s, n.toS[0], n.now));
  }

  lemma SlaveCutsPage(n: Net)
    requires Invariant(n) && n.m.up && n.s.up && n.toS != [] && n.toS[0] == MasterPage(n, n.m.pages)
    requires n.m.pages == n.s.pages && !Finished(n.s)
    requires if n.s.pages == 0 then Negotiates(n.s.e, n.toS[0]) else Proceeds(n.s.e, n.toS[0])
    ensures Invariant(SlaveTakes(n))
  {
    if n.s.pages == 0 {
      SlaveFirstPage(n);
    } else {
      SlaveNextPage(n);
    }
  }

  lemma LastIsSlavePage(n: Net)
    requires PageInvariant(n.s, SlaveSequence(n)) && n.s.up && !n.s.e.master
    ensures n.s.e.lastDd == Some(SlavePage(n, n.s.pages)) && n.s.e.lastDd.value.DatabaseDescription?
  {
  }

  lemma SlaveAgain(n: Net)
    requires ToMaster(n) && PageInvariant(n.s, SlaveSequence(n)) && n.s.up && n.s.pages > 0 && !n.s.e.master
    ensures ToMaster(n.(toM := n.toM + [n.s.e.lastDd.value]))
  {
    LastIsSlavePage(n);
    InFlightRepeat(n.toM, SlavePage(n, n.m.pages), SlavePage(n, n.s.pages), n.m.db);
  }

  lemma SlaveRepeatLands(n: Net, r: Reply)
    requires Invariant(n) && n.s.up && n.s.pages > 0 && n.toS != []
    requires SamePages(n.s, r.side) && SideInvariant(r.side, SlaveSequence(n), n.m.e.summary)
    requires r.packets == [n.s.e.lastDd.value]
    ensures Invariant(Moved(n.(toS := n.toS[1..]), false, r))
  {
    SlaveTail(n);
    SlaveAgain(n);
    KeepsPages(n, Moved(n.(toS := n.toS[1..]), false, r));
  }

  /** The slave answers a repeated description with the page it last cut. */
  lemma SlaveRepeats(n: Net)
    requires Invariant(n) && n.s.up && n.toS != [] && n.toS[0].DatabaseDescription?
    requires n.s.pages > 0 && Duplicate(n.s.e, n.toS[0]) && Readable(n.s.e, n.toS[0])
    ensures Invariant(SlaveTakes(n))
  {
    Repeated(n.s, n.toS[0], n.now, SlaveSequence(n), n.m.e.summary);
    SlaveRepeatLands(n, DeliverSide(n.s, n.toS[0], n.now));
  }

  lemma SlaveDeliversDd(n: Net)
    requires Invariant(n) && n.s.up && n.toS != [] && n.toS[0].DatabaseDescription?
    ensures Invariant(SlaveTakes(n)) && !Restarts(n.s.e, n.toS[0], n.s.db)
  {
    SlaveSees(n);
    if n.s.pages > 0 && Duplicate(n.s.e, n.toS[0]) {
      SlaveRepeats(n);
    } else {
      SlaveCutsPage(n);
    }
  }

  lemma SlaveTail(n: Net)
    requires ToSlave(n) && n.toS != []
    ensures ToSlave(n.(toS := n.toS[1..])) && RequestKnown(n.toS[0], n.s.db)
  {
    var lo := MasterPage(n, if n.s.pages == 0 then 0 else n.s.pages - 1);
    InFlightHead(n.toS, lo, MasterPage(n, n.m.pages), n.s.db);
    InFlightTail(n.toS, lo, MasterPage(n, n.m.pages), n.s.db);
  }

  lemma SlaveDeliversPlain(n: Net)
    requires Invariant(n) && n.toS != [] && !(n.s.up && n.toS[0].DatabaseDescription?)
    ensures Invariant(SlaveTakes(n)) && !Restarts(n.s.e, n.toS[0], n.s.db)
  {
    var d := n.toS[0];
    SlaveTail(n);
    if n.s.up {
      DeliverPlain(n.s, d, n.now, SlaveSequence(n), n.m.e.summary, n.m.db);
      SlavePlain(n, n.toS[1..], DeliverSide(n.s, d, n.now));
    } else {
      KeepsPages(n, SlaveTakes(n));
    }
  }

  lemma SlaveDelivers(n: Net)
    requires Invariant(n) && n.toS != []
    ensures Invariant(SlaveTakes(n)) && !Restarts(n.s.e, n.toS[0], n.s.db)
  {
    if n.s.up && n.toS[0].DatabaseDescription? {
      SlaveDeliversDd(n);
    } else {
      SlaveDeliversPlain(n);
    }
  }

  // ------------------------------------------------------------------- the other actions

  lemma BeginSideKeeps(x: Side, now: nat, sequence: nat, peer: seq<LsaHeader>)
    requires SideInvariant(x, sequence, peer) && !x.up
    ensures var r := BeginSide(x, now);
            && SideInvariant(r.side, sequence, peer) && r.side.up && r.side.pages == 0
            && r.side.e.mtu == x.e.mtu && r.side.e.master == x.e.master && r.side.db == x.db
            && r.side.accepted == x.accepted && r.side.e.state == ExStart
            && r.packets == [Page(r.side.e.summary, x.e.mtu, x.e.master, sequence, 0)]
  {
    SummaryKeys(x.db);
  }

  lemma MasterBeginLands(n: Net, r: Reply)
    requires Invariant(n) && !n.m.up
    requires SideInvariant(r.side, MasterSequence(n), n.s.e.summary)
    requires r.side.up && r.side.pages == 0 && r.side.e.mtu == n.m.e.mtu && r.side.e.master && r.side.db == n.m.db
    requires r.side.accepted == n.m.accepted && r.side.e.state == ExStart
    requires r.packets == [Page(r.side.e.summary, r.side.e.mtu, true, MasterSequence(n), 0)]
    ensures Invariant(Moved(n, true, r))
  {
  }

  lemma SlaveBeginLands(n: Net, r: Reply)
    requires Invariant(n) && !n.s.up
    requires SideInvariant(r.side, SlaveSequence(n), n.m.e.summary)
    requires r.side.up && r.side.pages == 0 && r.side.e.mtu == n.s.e.mtu && !r.side.e.master && r.side.db == n.s.db
    requires r.side.accepted == n.s.accepted && r.side.e.state == ExStart
    requires r.packets == [Page(r.side.e.summary, r.side.e.mtu, false, SlaveSequence(n), 0)]
    ensures Invariant(Moved(n, false, r))
  {
  }

  lemma BeginKeeps(n: Net, master: bool)
    requires Invariant(n)
    ensures Invariant(Step(n, Begin(master)))
  {
    if (if master then n.m else n.s).up {
      SilentKeeps(n, master, BeginSide(if master then n.m else n.s, n.now));
    } else if master {
      BeginSideKeeps(n.m, n.now, MasterSequence(n), n.s.e.summary);
      MasterBeginLands(n, BeginSide(n.m, n.now));
    } else {
      BeginSideKeeps(n.s, n.now, SlaveSequence(n), n.m.e.summary);
      SlaveBeginLands(n, BeginSide(n.s, n.now));
    }
  }

  lemma ChannelsChange(n: Net, toM: seq<Body>, toS: seq<Body>, now: nat)
    requires Invariant(n) && ToMaster(n.(toM := toM)) && ToSlave(n.(toS := toS))
    ensures Invariant(n.(toM := toM, toS := toS, now := now))
  {
  }

  lemma MasterLoses(n: Net, at: nat)
    requires Invariant(n) && at < |n.toM|
    ensures Invariant(Step(n, Lose(true, at)))
  {
    InFlightDrop(n.toM, at, SlavePage(n, n.m.pages), SlavePage(n, n.s.pages), n.m.db);
    ChannelsChange(n, Step(n, Lose(true, at)).toM, n.toS, n.now);
  }

  lemma SlaveDrops(n: Net, at: nat)
    requires ToSlave(n) && at < |n.toS|
    ensures ToSlave(n.(toS := n.toS[..at] + n.toS[at + 1..]))
  {
    InFlightDrop(n.toS, at, MasterPage(n, if n.s.pages == 0 then 0 else n.s.pages - 1), MasterPage(n, n.m.pages),
                 n.s.db);
  }

  lemma SlaveLoses(n: Net, at: nat)
    requires Invariant(n) && at < |n.toS|
    ensures Invariant(Step(n, Lose(false, at)))
  {
    SlaveDrops(n, at);
    ChannelsChange(n, n.toM, n.toS[..at] + n.toS[at + 1..], n.now);
  }

  lemma LoseKeeps(n: Net, master: bool, at: nat)
    requires Invariant(n)
    ensures Invariant(Step(n, Lose(master, at)))
  {
    if master {
      if at < |n.toM| { MasterLoses(n, at); }
    } else {
      if at < |n.toS| { SlaveLoses(n, at); }
    }
  }

  lemma SilentKeeps(n: Net, master: bool, r: Reply)
    requires Invariant(n) && r == Reply(if master then n.m else n.s, [])
    ensures Invariant(Moved(n, master, r))
  {
    assert n.toM + [] == n.toM && n.toS + [] == n.toS;
    assert Moved(n, master, r) == n;
  }

  /** What a timer sends: perhaps the last page again, then plain packets. */
  ghost predicate Repeats(packets: seq<Body>, page: Body, db: Database) {
    Plain(packets, db) || (packets != [] && packets[0] == page && Plain(packets[1..], db))
  }

  lemma InFlightRepeats(channel: seq<Body>, packets: seq<Body>, lo: Body, hi: Body, db: Database)
    requires InFlight(channel, lo, hi, db) && hi.DatabaseDescription? && Repeats(packets, hi, db)
    ensures InFlight(channel + packets, lo, hi, db)
  {
    if Plain(packets, db) {
      InFlightPlain(channel, packets, lo, hi, db);
    } else {
      assert channel + packets == (channel + [hi]) + packets[1..];
      InFlightRepeat(channel, lo, hi, db);
      InFlightPlain(channel + [hi], packets[1..], lo, hi, db);
    }
  }

  lemma MasterFireLands(n: Net, r: Reply)
    requires Invariant(n) && n.m.up
    requires SamePages(n.m, r.side) && SideInvariant(r.side, MasterSequence(n), n.s.e.summary)
    requires Repeats(r.packets, MasterPage(n, n.m.pages), n.s.db)
    ensures Invariant(Moved(n, true, r))
  {
    InFlightRepeats(n.toS, r.packets, MasterPage(n, if n.s.pages == 0 then 0 else n.s.pages - 1),
                    MasterPage(n, n.m.pages), n.s.db);
    KeepsPages(n, Moved(n, true, r));
  }

  lemma SlaveFireLands(n: Net, r: Reply)
    requires Invariant(n) && n.s.up
    requires SamePages(n.s, r.side) && SideInvariant(r.side, SlaveSequence(n), n.m.e.summary)
    requires Repeats(r.packets, SlavePage(n, n.s.pages), n.m.db)
    ensures Invariant(Moved(n, false, r))
  {
    InFlightRepeats(n.toM, r.packets, SlavePage(n, n.m.pages), SlavePage(n, n.s.pages), n.m.db);
    KeepsPages(n, Moved(n, false, r));
  }

  lemma MasterFires(n: Net)
    requires Invariant(n) && n.m.up
    ensures Invariant(Step(n, Fire(true)))
  {
    FirePlain(n.m, n.now, MasterSequence(n), n.s.e.summary, n.s.db);
    MasterFireLands(n, FireSide(n.m, n.now));
  }

  lemma SlaveFireSide(n: Net)
    requires Invariant(n) && n.s.up
    ensures var r := FireSide(n.s, n.now);
            && SamePages(n.s, r.side) && SideInvariant(r.side, SlaveSequence(n), n.m.e.summary)
            && Repeats(r.packets, SlavePage(n, n.s.pages), n.m.db)
  {
    assert SlavePage(n, n.s.pages) == Page(n.s.e.summary, n.s.e.mtu, n.s.e.master, SlaveSequence(n), n.s.pages);
    FirePlain(n.s, n.now, SlaveSequence(n), n.m.e.summary, n.m.db);
  }

  lemma SlaveFires(n: Net)
    requires Invariant(n) && n.s.up
    ensures Invariant(Step(n, Fire(false)))
  {
    SlaveFireSide(n);
    SlaveFireLands(n, FireSide(n.s, n.now));
  }

  lemma FireKeeps(n: Net, master: bool)
    requires Invariant(n)
    ensures Invariant(Step(n, Fire(master)))
  {
    if !(if master then n.m else n.s).up {
      SilentKeeps(n, master, FireSide(if master then n.m else n.s, n.now));
    } else if master {
      MasterFires(n);
    } else {
      SlaveFires(n);
    }
  }

  lemma MasterFloods(n: Net, lsa: Lsa)
    requires Invariant(n) && n.m.up
    ensures Invariant(Step(n, FloodLsa(true, lsa)))
  {
    FloodPlain(n.m, lsa, n.now, MasterSequence(n), n.s.e.summary, n.s.db);
    MasterPlain(n, n.toM, FloodSide(n.m, lsa, n.now));
  }

  lemma SlaveFloods(n: Net, lsa: Lsa)
    requires Invariant(n) && n.s.up
    ensures Invariant(Step(n, FloodLsa(false, lsa)))
  {
    FloodPlain(n.s, lsa, n.now, SlaveSequence(n), n.m.e.summary, n.m.db);
    SlavePlain(n, n.toS, FloodSide(n.s, lsa, n.now));
  }

  lemma FloodKeeps(n: Net, master: bool, lsa: Lsa)
    requires Invariant(n)
    ensures Invariant(Step(n, FloodLsa(master, lsa)))
  {
    if !(if master then n.m else n.s).up {
      SilentKeeps(n, master, FloodSide(if master then n.m else n.s, lsa, n.now));
    } else if master {
      MasterFloods(n, lsa);
    } else {
      SlaveFloods(n, lsa);
    }
  }

  lemma ChangeSideKeeps(x: Side, db: Database, sequence: nat, peer: seq<LsaHeader>)
    requires SideInvariant(x, sequence, peer)
    ensures SideInvariant(ChangeSide(x, db), sequence, peer) && SamePages(x, ChangeSide(x, db))
  {
  }

  lemma ChangeKeeps(n: Net, master: bool, db: Database)
    requires Invariant(n)
    ensures Invariant(Step(n, ChangeDatabase(master, db)))
  {
    if master {
      ChangeSideKeeps(n.m, db, MasterSequence(n), n.s.e.summary);
    } else {
      ChangeSideKeeps(n.s, db, SlaveSequence(n), n.m.e.summary);
    }
    KeepsPages(n, Step(n, ChangeDatabase(master, db)));
  }

  lemma PassKeeps(n: Net, time: nat)
    requires Invariant(n)
    ensures Invariant(Step(n, Pass(time)))
  {
    if n.now <= time {
      ChannelsChange(n, n.toM, n.toS, time);
    }
  }

  lemma DeliverKeeps(n: Net, master: bool)
    requires Invariant(n)
    ensures Invariant(Step(n, Deliver(master)))
  {
    if master {
      if n.toM != [] { MasterDelivers(n); }
    } else {
      if n.toS != [] { SlaveDelivers(n); }
    }
  }

  lemma StepKeeps(n: Net, a: Action)
    requires Invariant(n)
    ensures Invariant(Step(n, a))
  {
    match a {
      case Begin(master) => BeginKeeps(n, master);
      case Deliver(master) => DeliverKeeps(n, master);
      case Lose(master, at) => LoseKeeps(n, master, at);
      case Fire(master) => FireKeeps(n, master);
      case FloodLsa(master, lsa) => FloodKeeps(n, master, lsa);
      case ChangeDatabase(master, db) => ChangeKeeps(n, master, db);
      case Pass(time) => PassKeeps(n, time);
    }
  }

  // ---------------------------------------------------------------------------- theorems

  lemma {:induction false} RunKeeps(n: Net, actions: seq<Action>)
    requires Invariant(n)
    ensures Invariant(Run(n, actions))
    decreases |actions|
  {
    if actions != [] {
      StepKeeps(n, actions[0]);
      RunKeeps(Step(n, actions[0]), actions[1..]);
    }
  }

  lemma Reachable(n: Net, actions: seq<Action>)
    requires Initial(n)
    ensures Invariant(Run(n, actions))
  {
    assert Invariant(n);
    RunKeeps(n, actions);
  }

  /** No packet that any run can deliver makes its receiver give up and start over. */
  lemma NoRestart(n: Net, actions: seq<Action>)
    requires Initial(n)
    ensures var r := Run(n, actions);
            && (r.toM != [] && r.m.up ==> !Restarts(r.m.e, r.toM[0], r.m.db))
            && (r.toS != [] && r.s.up ==> !Restarts(r.s.e, r.toS[0], r.s.db))
  {
    Reachable(n, actions);
    var r := Run(n, actions);
    if r.toM != [] { MasterDelivers(r); }
    if r.toS != [] { SlaveDelivers(r); }
  }

  /** What the page counters say about the accepted lists. */
  lemma AcceptedByPages(r: Net)
    requires Lockstep(r) && r.m.accepted <= r.s.e.summary && r.s.accepted <= r.m.e.summary
    requires r.m.pages > 0 || !Finished(r.m)
    requires r.s.pages > 0 || !Finished(r.s)
    ensures Finished(r.m) ==> r.m.accepted == r.s.e.summary
    ensures Finished(r.s) ==> r.s.accepted == r.m.e.summary
  {
  }

  /**
   The header lists a side has accepted, concatenated, are always a prefix of the peer's
   summary; once it has left Exchange they are the whole summary.
   */
  lemma WholeSummaryAccepted(n: Net, actions: seq<Action>)
    requires Initial(n)
    ensures var r := Run(n, actions);
            && r.m.accepted <= r.s.e.summary && r.s.accepted <= r.m.e.summary
            && (Finished(r.m) ==> r.m.accepted == r.s.e.summary)
            && (Finished(r.s) ==> r.s.accepted == r.m.e.summary)
  {
    Reachable(n, actions);
    AcceptedByPages(Run(n, actions));
  }

  lemma FullSide(x: Side, peer: seq<LsaHeader>)
    requires ListInvariant(x, peer) && x.e.state == Full && x.accepted == peer
    ensures x.e.requests == map[] && forall h :: h in peer ==> AsRecent(h, x.seen)
  {
  }

  /**
   A Full side asks for nothing, and for every header of its peer's summary its database
   held, or it accepted an update carrying, an instance not older than that header.
   */
  lemma FullIsSynchronised(n: Net, actions: seq<Action>)
    requires Initial(n)
    ensures var r := Run(n, actions);
            && (r.m.e.state == Full ==>
                  r.m.e.requests == map[] && forall h :: h in r.s.e.summary ==> AsRecent(h, r.m.seen))
            && (r.s.e.state == Full ==>
                  r.s.e.requests == map[] && forall h :: h in r.m.e.summary ==> AsRecent(h, r.s.seen))
  {
    Reachable(n, actions);
    WholeSummaryAccepted(n, actions);
    var r := Run(n, actions);
    if r.m.e.state == Full { FullSide(r.m, r.s.e.summary); }
    if r.s.e.state == Full { FullSide(r.s, r.m.e.summary); }
  }

  /** Before that, a header not yet matched is on the request list itself, never dropped at the limit. */
  lemma NothingForgotten(n: Net, actions: seq<Action>)
    requires Initial(n)
    ensures var r := Run(n, actions);
            && Covered(r.m.accepted, r.m.e.requests, r.m.seen) && |r.m.e.requests| <= OSPF_DATABASE_LIMIT
            && Covered(r.s.accepted, r.s.e.requests, r.s.seen) && |r.s.e.requests| <= OSPF_DATABASE_LIMIT
  {
    Reachable(n, actions);
    var r := Run(n, actions);
    RequestsBounded(r.m.e.requests, r.m.accepted);
    RequestsBounded(r.s.e.requests, r.s.accepted);
  }

  ghost predicate EndsClose(n: Net) {
    && (Finished(n.m) ==> Finished(n.s))
    && (Finished(n.s) && !Finished(n.m) ==>
          n.m.e.state == Exchange && n.s.e.lastDd.Some? && n.s.e.lastDd.value.DatabaseDescription?
          && Proceeds(n.m.e, n.s.e.lastDd.value) && !CutsPage(n.m.e, n.s.e.lastDd.value))
  }

  lemma InvariantEndsClose(n: Net)
    requires Invariant(n)
    ensures EndsClose(n)
  {
    if Finished(n.s) && !Finished(n.m) {
      WrapStep(n.base + n.m.pages - 1);
      MasterDecides(n);
    }
  }

  /** If one side finishes, the other has at most its last page to take: neither waits for more. */
  lemma FinishTogether(n: Net, actions: seq<Action>)
    requires Initial(n)
    ensures EndsClose(Run(n, actions))
  {
    Reachable(n, actions);
    InvariantEndsClose(Run(n, actions));
  }
}
