/**
 One adjacency's master/slave database exchange (sections 10.6 to 10.8 of RFC 2328).

 `Endpoint` is the value of one exchange and the functions on it say what every operation
 does; class `OspfExchange` is the object whose methods update those fields in place, each
 proved to have exactly the effect of its function. The network of two endpoints, and what
 holds over its runs, is in module `OspfNetwork`.
 */
module ExchangeSpec {
  import opened Prelude
  import opened OspfLsa

  const RETRANSMIT_US: nat := 5_000_000
  const OSPF_DATABASE_LIMIT: nat := 4096
  /** Wire parameters of OSPF version 2. */
  const OPTIONS: nat := 2
  const PACKET_OVERHEAD: nat := 44
  const DD_OVERHEAD: nat := 52

  datatype NeighborState = Down | Init | TwoWay | ExStart | Exchange | Loading | Full

  /** The I, M and MS bits of a database description, and whether any other bit is set. */
  datatype DdFlags = DdFlags(init: bool, more: bool, master: bool, reserved: bool)

  const INITIAL_FLAGS := DdFlags(true, true, true, false)

  datatype Body =
    | Hello
    | DatabaseDescription(mtu: nat, options: nat, flags: DdFlags, sequence: nat, headers: seq<LsaHeader>)
    | LinkStateRequest(keys: seq<Key>)
    | LinkStateUpdate(lsas: seq<Lsa>)
    | LinkStateAck(acked: seq<LsaHeader>)

  datatype Pending = Pending(lsa: Lsa, due: nat)

  datatype Endpoint = Endpoint(
    state: NeighborState,
    master: bool,
    mtu: nat,
    sequence: nat,
    summary: seq<LsaHeader>,
    offset: nat,
    lastDd: Option<Body>,
    ddDue: nat,
    requests: map<Key, LsaHeader>,
    requestDue: nat,
    retransmit: map<Key, Pending>)

  datatype Sent = Sent(endpoint: Endpoint, body: Body)
  datatype Flooded = Flooded(endpoint: Endpoint, body: Option<Body>)
  datatype Ticked = Ticked(endpoint: Endpoint, packets: seq<Body>)
  datatype Outcome = Outcome(endpoint: Endpoint, packets: seq<Body>, advertisements: seq<Lsa>)

  function NewEndpoint(master: bool, mtu: nat, sequence: nat): Endpoint {
    Endpoint(ExStart, master, mtu, sequence, [], 0, None, 0, map[], 0, map[])
  }

  predicate CanExchange(e: Endpoint) {
    e.state == Exchange || e.state == Loading || e.state == Full
  }

  // ---------------------------------------------------------------- database descriptions

  /** Encodable headers of the database in key order. */
  function HeadersOf(keys: seq<Key>, db: Database): (headers: seq<LsaHeader>)
    requires forall k :: k in keys ==> k in db
  {
    if keys == [] then []
    else
      var h := db[keys[0]].Header();
      (if h.Some? then [h.value] else []) + HeadersOf(keys[1..], db)
  }

  ghost function Summary(db: Database): seq<LsaHeader> {
    var all := HeadersOf(SortedKeys(db.Keys), db);
    if |all| <= OSPF_DATABASE_LIMIT then all else all[..OSPF_DATABASE_LIMIT]
  }

  function SendDd(e: Endpoint, flags: DdFlags, headers: seq<LsaHeader>, now: nat): Sent {
    var body := DatabaseDescription(e.mtu, OPTIONS, flags, e.sequence, headers);
    Sent(e.(lastDd := Some(body), ddDue := SatAdd64(now, RETRANSMIT_US)), body)
  }

  ghost function Start(e: Endpoint, db: Database, now: nat): Sent {
    SendDd(e.(state := ExStart, summary := Summary(db), offset := 0, requests := map[], retransmit := map[]),
           INITIAL_FLAGS, [], now)
  }

  /** Headers carried by one database description of the given MTU. */
  function ChunkSize(mtu: nat): (size: nat)
    ensures size >= 1
  {
    Max(SatSub(mtu, DD_OVERHEAD) / 20, 1)
  }

  function NextOffset(offset: nat, size: nat, length: nat): nat {
    Min(offset + size, length)
  }

  function NextDd(e: Endpoint, now: nat): Sent
    requires e.offset <= |e.summary|
  {
    var end := NextOffset(e.offset, ChunkSize(e.mtu), |e.summary|);
    SendDd(e.(offset := end), DdFlags(false, end < |e.summary|, e.master, false), e.summary[e.offset..end], now)
  }

  // ------------------------------------------------------------------------ request list

  /** The database instance of a key, when its header is readable. */
  function Held(db: Database, key: Key): Option<LsaHeader> {
    if key in db then db[key].Header() else None
  }

  predicate Wanted(e: Endpoint, header: LsaHeader, db: Database) {
    var held := Held(db, header.key);
    && (held.None? || Newer(header, held.value))
    && (|e.requests| < OSPF_DATABASE_LIMIT || header.key in e.requests)
  }

  function RequestHeader(e: Endpoint, header: LsaHeader, db: Database): Endpoint {
    if !Wanted(e, header, db) then e
    else if header.key in e.requests && !Newer(header, e.requests[header.key]) then e
    else e.(requests := e.requests[header.key := header])
  }

  function RequestHeaders(e: Endpoint, headers: seq<LsaHeader>, db: Database): Endpoint
    decreases |headers|
  {
    if headers == [] then e
    else RequestHeaders(RequestHeader(e, headers[0], db), headers[1..], db)
  }

  ghost function RequestPackets(e: Endpoint): seq<Body> {
    var chunks := Chunks(SortedKeys(e.requests.Keys), Max(SatSub(e.mtu, PACKET_OVERHEAD) / 12, 1));
    seq(|chunks|, i requires 0 <= i < |chunks| => LinkStateRequest(chunks[i]))
  }

  ghost function Finish(e: Endpoint, now: nat): Ticked {
    if e.requests == map[] then Ticked(e.(state := Full), [])
    else Ticked(e.(state := Loading, requestDue := SatAdd64(now, RETRANSMIT_US)), RequestPackets(e))
  }

  // ------------------------------------------------------------------- reliable flooding

  function Flood(e: Endpoint, lsa: Lsa, now: nat): Flooded {
    if !CanExchange(e) || lsa.encoding.None?
       || lsa.encoding.value.length + PACKET_OVERHEAD + 4 > e.mtu
       || (|e.retransmit| >= OSPF_DATABASE_LIMIT && lsa.key !in e.retransmit)
    then
      Flooded(e, None)
    else
      Flooded(e.(retransmit := e.retransmit[lsa.key := Pending(lsa, SatAdd64(now, RETRANSMIT_US))]),
              Some(LinkStateUpdate([lsa])))
  }

  // --------------------------------------------------------------------------- receiving

  function Ignore(e: Endpoint): Outcome {
    Outcome(e, [], [])
  }

  ghost function Restart(e: Endpoint, db: Database, now: nat): Outcome {
    var sent := Start(e.(sequence := Wrap32(e.sequence + 1)), db, now);
    Outcome(sent.endpoint, [sent.body], [])
  }

  predicate Readable(e: Endpoint, d: Body)
    requires d.DatabaseDescription?
  {
    d.mtu <= e.mtu && !d.flags.reserved && (d.options / OPTIONS) % 2 == 1
  }

  /** A repeat of the packet this side has already processed. */
  predicate Duplicate(e: Endpoint, d: Body)
    requires d.DatabaseDescription?
  {
    || (!e.master && d.sequence == e.sequence)
    || (e.master && (e.state == Loading || e.state == Full)
        && d.sequence == e.sequence && !d.flags.init && !d.flags.master)
    || (e.master && d.sequence == Wrap32(e.sequence - 1))
  }

  predicate InStep(e: Endpoint, d: Body)
    requires d.DatabaseDescription?
  {
    && !d.flags.init
    && d.flags.master != e.master
    && d.sequence == (if e.master then e.sequence else Wrap32(e.sequence + 1))
    && e.state == Exchange
  }

  function SentMore(e: Endpoint): bool {
    e.lastDd.Some? && e.lastDd.value.DatabaseDescription? && e.lastDd.value.flags.more
  }

  /** The step taken on the expected database description. */
  ghost function AcceptDd(e: Endpoint, d: Body, db: Database, now: nat): Outcome
    requires d.DatabaseDescription?
    requires e.offset <= |e.summary|
  {
    var r := RequestHeaders(e, d.headers, db);
    RequestHeadersFrame(e, d.headers, db);
    if e.master then
      if !SentMore(r) && !d.flags.more then
        var f := Finish(r, now);
        Outcome(f.endpoint, f.packets, [])
      else
        var sent := NextDd(r.(sequence := Wrap32(r.sequence + 1)), now);
        Outcome(sent.endpoint, [sent.body], [])
    else
      var sent := NextDd(r.(sequence := d.sequence), now);
      if sent.endpoint.offset == |sent.endpoint.summary| && !d.flags.more then
        var f := Finish(sent.endpoint, now);
        Outcome(f.endpoint, [sent.body] + f.packets, [])
      else
        Outcome(sent.endpoint, [sent.body], [])
  }

  /** ExStart: the slave adopts the master's sequence, the master waits for its echo. */
  ghost function Negotiate(e: Endpoint, d: Body, db: Database, now: nat): Outcome
    requires d.DatabaseDescription?
    requires e.offset <= |e.summary|
  {
    if !e.master && d.flags == INITIAL_FLAGS && d.headers == [] then
      var sent := NextDd(e.(sequence := d.sequence, state := Exchange), now);
      Outcome(sent.endpoint, [sent.body], [])
    else if e.master && !d.flags.init && !d.flags.master && d.sequence == e.sequence then
      var r := RequestHeaders(e.(state := Exchange), d.headers, db);
      RequestHeadersFrame(e.(state := Exchange), d.headers, db);
      var sent := NextDd(r.(sequence := Wrap32(r.sequence + 1)), now);
      Outcome(sent.endpoint, [sent.body], [])
    else
      Ignore(e)
  }

  ghost function ReceiveDd(e: Endpoint, d: Body, db: Database, now: nat): Outcome
    requires d.DatabaseDescription?
    requires e.offset <= |e.summary|
  {
    if !Readable(e, d) then Ignore(e)
    else if e.state == ExStart then Negotiate(e, d, db, now)
    else if !CanExchange(e) then Ignore(e)
    else if Duplicate(e, d) then
      Outcome(e, if !e.master && e.lastDd.Some? then [e.lastDd.value] else [], [])
    else if !InStep(e, d) then Restart(e, db, now)
    else AcceptDd(e, d, db, now)
  }

  /** Answer explicit requests in order; the first unknown key restarts the exchange. */
  ghost function AnswerRequests(e: Endpoint, keys: seq<Key>, packets: seq<Body>, db: Database, now: nat): Outcome
    decreases |keys|
  {
    if keys == [] then Outcome(e, packets, [])
    else if keys[0] !in db then Restart(e, db, now)
    else
      var f := Flood(e, db[keys[0]], now);
      AnswerRequests(f.endpoint, keys[1..], packets + (if f.body.Some? then [f.body.value] else []), db, now)
  }

  /** Progress through one link state update. */
  datatype Intake = Intake(endpoint: Endpoint, acks: seq<LsaHeader>, packets: seq<Body>, advertisements: seq<Lsa>)

  function TakeUpdate(f: Intake, lsa: Lsa, db: Database, now: nat): Intake {
    var header := lsa.Header();
    if header.None? then f
    else
      var h := header.value;
      var e := f.endpoint;
      if h.key in e.requests && Compare(h, e.requests[h.key]) == Less then f
      else
        var e1 := e.(requests := e.requests - {h.key});
        var held := Held(db, h.key);
        if held.None? || Compare(h, held.value) != Less then
          Intake(e1, f.acks + [h], f.packets, f.advertisements + [lsa])
        else
          var back := Flood(e1, db[h.key], now);
          Intake(back.endpoint, f.acks, f.packets + (if back.body.Some? then [back.body.value] else []),
                 f.advertisements)
  }

  function TakeUpdates(f: Intake, lsas: seq<Lsa>, db: Database, now: nat): Intake
    decreases |lsas|
  {
    if lsas == [] then f else TakeUpdates(TakeUpdate(f, lsas[0], db, now), lsas[1..], db, now)
  }

  function AckPackets(acks: seq<LsaHeader>, mtu: nat): seq<Body> {
    var chunks := Chunks(acks, Max(SatSub(mtu, PACKET_OVERHEAD) / 20, 1));
    seq(|chunks|, i requires 0 <= i < |chunks| => LinkStateAck(chunks[i]))
  }

  function ReceiveUpdate(e: Endpoint, lsas: seq<Lsa>, db: Database, now: nat): Outcome {
    var f := TakeUpdates(Intake(e, [], [], []), lsas, db, now);
    var done := if f.endpoint.state == Loading && f.endpoint.requests == map[]
                then f.endpoint.(state := Full) else f.endpoint;
    Outcome(done, f.packets + AckPackets(f.acks, e.mtu), f.advertisements)
  }

  function TakeAck(e: Endpoint, header: LsaHeader): Endpoint {
    if header.key !in e.retransmit then e
    else
      var sent := e.retransmit[header.key].lsa.Header();
      if sent.Some? && Compare(header, sent.value) == Equal then
        e.(retransmit := e.retransmit - {header.key})
      else e
  }

  function TakeAcks(e: Endpoint, headers: seq<LsaHeader>): Endpoint
    decreases |headers|
  {
    if headers == [] then e else TakeAcks(TakeAck(e, headers[0]), headers[1..])
  }

  ghost function Receive(e: Endpoint, body: Body, db: Database, now: nat): Outcome
    requires e.offset <= |e.summary|
  {
    match body
    case DatabaseDescription(_, _, _, _, _) => ReceiveDd(e, body, db, now)
    case LinkStateRequest(keys) => if CanExchange(e) then AnswerRequests(e, keys, [], db, now) else Ignore(e)
    case LinkStateUpdate(lsas) => if CanExchange(e) then ReceiveUpdate(e, lsas, db, now) else Ignore(e)
    case LinkStateAck(headers) => if CanExchange(e) then Outcome(TakeAcks(e, headers), [], []) else Ignore(e)
    case Hello => Ignore(e)
  }

  // ------------------------------------------------------------------------------ timers

  predicate DdTimer(e: Endpoint) {
    e.state == ExStart || (e.state == Exchange && e.master)
  }

  function RearmOne(p: Pending, now: nat): Pending {
    if p.due <= now then p.(due := SatAdd64(now, RETRANSMIT_US)) else p
  }

  function Rearm(pending: map<Key, Pending>, now: nat): map<Key, Pending> {
    map k | k in pending :: RearmOne(pending[k], now)
  }

  /** Updates due among the first `n` entries of `keys`. */
  ghost function DueUpdates(keys: seq<Key>, n: nat, pending: map<Key, Pending>, now: nat): seq<Body>
    requires n <= |keys| && forall k :: k in keys ==> k in pending
  {
    if n == 0 then []
    else
      DueUpdates(keys, n - 1, pending, now)
      + (if pending[keys[n - 1]].due <= now then [LinkStateUpdate([pending[keys[n - 1]].lsa])] else [])
  }

  ghost function Tick(e: Endpoint, now: nat): Ticked {
    var resend := DdTimer(e) && e.ddDue <= now && e.lastDd.Some?;
    var ask := e.state == Loading && e.requestDue <= now;
    Ticked(
      e.(ddDue := if resend then SatAdd64(now, RETRANSMIT_US) else e.ddDue,
         requestDue := if ask then SatAdd64(now, RETRANSMIT_US) else e.requestDue,
         retransmit := Rearm(e.retransmit, now)),
      (if resend then [e.lastDd.value] else [])
      + (if ask then RequestPackets(e) else [])
      + DueUpdates(SortedKeys(e.retransmit.Keys), |SortedKeys(e.retransmit.Keys)|, e.retransmit, now))
  }

  function Deadlines(e: Endpoint): set<nat> {
    (if DdTimer(e) then {e.ddDue} else {})
    + (if e.state == Loading then {e.requestDue} else {})
    + (set k | k in e.retransmit :: e.retransmit[k].due)
  }

  function NextDeadline(e: Endpoint): Option<nat> {
    if Deadlines(e) == {} then None else Some(Minimum(Deadlines(e)))
  }

  // ------------------------------------------------------------ facts about one endpoint

  lemma RequestHeadersFrame(e: Endpoint, headers: seq<LsaHeader>, db: Database)
    ensures RequestHeaders(e, headers, db) == e.(requests := RequestHeaders(e, headers, db).requests)
    decreases |headers|
  {
    if headers != [] {
      RequestHeadersFrame(RequestHeader(e, headers[0], db), headers[1..], db);
    }
  }

  lemma TakeAcksFrame(e: Endpoint, headers: seq<LsaHeader>)
    ensures TakeAcks(e, headers) == e.(retransmit := TakeAcks(e, headers).retransmit)
    decreases |headers|
  {
    if headers != [] {
      TakeAcksFrame(TakeAck(e, headers[0]), headers[1..]);
    }
  }

  /** An update changes only the two lists, and only ever removes requests. */
  lemma TakeUpdatesFrame(f: Intake, lsas: seq<Lsa>, db: Database, now: nat)
    ensures var r := TakeUpdates(f, lsas, db, now);
            && r.endpoint == f.endpoint.(requests := r.endpoint.requests, retransmit := r.endpoint.retransmit)
            && (forall k :: k in r.endpoint.requests ==>
                  k in f.endpoint.requests && r.endpoint.requests[k] == f.endpoint.requests[k])
    decreases |lsas|
  {
    if lsas != [] {
      TakeUpdatesFrame(TakeUpdate(f, lsas[0], db, now), lsas[1..], db, now);
    }
  }

  lemma AnswerRequestsFrame(e: Endpoint, keys: seq<Key>, packets: seq<Body>, db: Database, now: nat)
    requires forall k :: k in keys ==> k in db
    ensures var r := AnswerRequests(e, keys, packets, db, now);
            r.endpoint == e.(retransmit := r.endpoint.retransmit)
    decreases |keys|
  {
    if keys != [] {
      AnswerRequestsFrame(Flood(e, db[keys[0]], now).endpoint, keys[1..],
        packets + (if Flood(e, db[keys[0]], now).body.Some? then [Flood(e, db[keys[0]], now).body.value] else []), db,
          now);
    }
  }

  /** A body on which an exchanging endpoint gives up and starts over. */
  predicate Restarts(e: Endpoint, body: Body, db: Database) {
    CanExchange(e) &&
    match body
    case DatabaseDescription(_, _, _, _, _) => Readable(e, body) && !Duplicate(e, body) && !InStep(e, body)
    case LinkStateRequest(keys) => exists k :: k in keys && k !in db
    case _ => false
  }

  lemma AnswerRequestsRestarts(e: Endpoint, keys: seq<Key>, packets: seq<Body>, db: Database, now: nat)
    requires exists k :: k in keys && k !in db
    requires CanExchange(e)
    ensures AnswerRequests(e, keys, packets, db, now).endpoint.state == ExStart
    decreases |keys|
  {
    if keys[0] in db {
      var k :| k in keys && k !in db;
      assert k in keys[1..];
      var f := Flood(e, db[keys[0]], now);
      AnswerRequestsRestarts(f.endpoint, keys[1..], packets + (if f.body.Some? then [f.body.value] else []), db, now);
    }
  }

  /** The adjacency falls back to ExStart exactly on the bodies named by `Restarts`. */
  lemma RestartsExactly(e: Endpoint, body: Body, db: Database, now: nat)
    requires CanExchange(e)
    requires e.offset <= |e.summary|
    ensures Receive(e, body, db, now).endpoint.state == ExStart <==> Restarts(e, body, db)
  {
    match body {
      case DatabaseDescription(_, _, _, _, _) =>
        RequestHeadersFrame(e, body.headers, db);
      case LinkStateRequest(keys) =>
        if exists k :: k in keys && k !in db {
          AnswerRequestsRestarts(e, keys, [], db, now);
        } else {
          AnswerRequestsFrame(e, keys, [], db, now);
        }
      case LinkStateUpdate(lsas) =>
        TakeUpdatesFrame(Intake(e, [], [], []), lsas, db, now);
      case LinkStateAck(headers) =>
        TakeAcksFrame(e, headers);
      case Hello =>
    }
  }

  // ------------------------------------------------------------- deadlines against ticks

  /** What `start` and `finish` establish: an armed timer has something to send. */
  predicate Armed(e: Endpoint) {
    && (DdTimer(e) ==> e.lastDd.Some?)
    && (e.state == Loading ==> e.requests != map[])
  }

  lemma DueUpdatesEmpty(keys: seq<Key>, n: nat, pending: map<Key, Pending>, now: nat)
    requires n <= |keys| && forall k :: k in keys ==> k in pending
    ensures DueUpdates(keys, n, pending, now) == [] <==> forall j :: 0 <= j < n ==> pending[keys[j]].due > now
  {
    if n > 0 {
      DueUpdatesEmpty(keys, n - 1, pending, now);
    }
  }

  lemma RequestPacketsEmpty(e: Endpoint)
    ensures RequestPackets(e) == [] <==> e.requests == map[]
  {
    var keys := SortedKeys(e.requests.Keys);
    if keys == [] {
      forall k ensures k !in e.requests { assert k in e.requests ==> k in keys; }
    } else {
      assert keys[0] in keys;
      assert keys[0] in e.requests;
    }
  }

  lemma DueUpdatesOf(pending: map<Key, Pending>, keys: seq<Key>, now: nat)
    requires forall k :: k in keys <==> k in pending
    ensures DueUpdates(keys, |keys|, pending, now) == [] <==> forall k :: k in pending ==> pending[k].due > now
  {
    DueUpdatesEmpty(keys, |keys|, pending, now);
  }

  lemma RearmIdle(pending: map<Key, Pending>, now: nat)
    requires forall k :: k in pending ==> pending[k].due > now
    ensures Rearm(pending, now) == pending
  {
  }

  lemma DeadlineMembers(e: Endpoint, t: nat)
    ensures t in Deadlines(e) <==>
            || (DdTimer(e) && t == e.ddDue)
            || (e.state == Loading && t == e.requestDue)
            || (exists k :: k in e.retransmit && e.retransmit[k].due == t)
  {
  }

  lemma SilentBeforeDeadline(e: Endpoint, now: nat)
    requires Armed(e)
    requires forall t :: t in Deadlines(e) ==> now < t
    ensures Tick(e, now) == Ticked(e, [])
  {
    forall k | k in e.retransmit ensures e.retransmit[k].due > now {
      DeadlineMembers(e, e.retransmit[k].due);
    }
    DueUpdatesOf(e.retransmit, SortedKeys(e.retransmit.Keys), now);
    RearmIdle(e.retransmit, now);
    DeadlineMembers(e, e.ddDue);
    DeadlineMembers(e, e.requestDue);
  }

  lemma SpeaksAtDeadline(e: Endpoint, now: nat, t: nat)
    requires Armed(e)
    requires t in Deadlines(e) && t <= now
    ensures Tick(e, now).packets != []
  {
    DeadlineMembers(e, t);
    DueUpdatesOf(e.retransmit, SortedKeys(e.retransmit.Keys), now);
    RequestPacketsEmpty(e);
  }

  lemma TickRearms(e: Endpoint, now: nat, t: nat)
    requires Armed(e)
    requires now < U64_MAX
    requires t in Deadlines(Tick(e, now).endpoint)
    ensures now < t
  {
    DeadlineMembers(Tick(e, now).endpoint, t);
  }

  /**
   The advertised deadline is exact: a tick is silent and changes nothing before it, sends
   something from then on, and leaves every remaining deadline in the future.
   */
  lemma DeadlineIsExact(e: Endpoint, now: nat)
    requires Armed(e)
    ensures NextDeadline(e).None? || now < NextDeadline(e).value ==> Tick(e, now) == Ticked(e, [])
    ensures NextDeadline(e).Some? && NextDeadline(e).value <= now ==> Tick(e, now).packets != []
    ensures now < U64_MAX ==>
              var next := NextDeadline(Tick(e, now).endpoint); next.None? || now < next.value
  {
    if NextDeadline(e).None? || now < NextDeadline(e).value {
      SilentBeforeDeadline(e, now);
    } else {
      SpeaksAtDeadline(e, now, NextDeadline(e).value);
    }
    var next := NextDeadline(Tick(e, now).endpoint);
    if now < U64_MAX && next.Some? {
      TickRearms(e, now, next.value);
    }
  }
}
