/**
 The packets of an exchange one by one: how lists are cut to fit the MTU, what becomes of each
 description that arrives, and what timers send.
 */
module OspfPackets {
  import opened Prelude
  import opened OspfLsa
  import opened ExchangeSpec

  // ------------------------------------------------------------------------ cutting lists

  function Flat<T>(parts: seq<seq<T>>): seq<T> {
    if parts == [] then [] else parts[0] + Flat(parts[1..])
  }

  /** In order, nothing lost, no part empty or too long, and every part but the last one full. */
  ghost predicate Cut<T>(s: seq<T>, parts: seq<seq<T>>, size: nat) {
    && Flat(parts) == s
    && (forall i :: 0 <= i < |parts| ==> 1 <= |parts[i]| <= size)
    && (forall i :: 0 <= i < |parts| - 1 ==> |parts[i]| == size)
  }

  lemma CutOne<T>(s: seq<T>, size: nat)
    requires 1 <= |s| <= size
    ensures Cut(s, [s], size)
  {
    assert [s][1..] == [];
  }

  lemma CutGrows<T>(first: seq<T>, rest: seq<T>, parts: seq<seq<T>>, size: nat)
    requires Cut(rest, parts, size) && |first| == size >= 1
    ensures Cut(first + rest, [first] + parts, size)
  {
    assert ([first] + parts)[1..] == parts;
  }

  lemma {:induction false} ChunksCut<T>(s: seq<T>, size: nat)
    requires size >= 1
    ensures Cut(s, Chunks(s, size), size)
    decreases |s|
  {
    if |s| > size {
      ChunksCut(s[size..], size);
      CutGrows(s[..size], s[size..], Chunks(s[size..], size), size);
      assert s[..size] + s[size..] == s;
    } else if s != [] {
      CutOne(s, size);
    }
  }

  /** `size` is the number of items of `each` bytes that fit the MTU behind `overhead` bytes, and at least one. */
  predicate Fitting(mtu: nat, overhead: nat, each: nat, size: nat) {
    size >= 1 && (size == 1 || overhead + each * size <= mtu) && mtu < overhead + each * (size + 1)
  }

  lemma DivFits(mtu: nat, overhead: nat, each: nat)
    requires each == 12 || each == 20
    ensures Fitting(mtu, overhead, each, Max(SatSub(mtu, overhead) / each, 1))
  {
  }

  /** A description carries as many headers of 20 bytes as fit. */
  lemma PagesFit(mtu: nat)
    ensures Fitting(mtu, 52, 20, ChunkSize(mtu))
  {
  }

  /** All that is requested, in key order, in packets as full as the MTU allows. */
  lemma RequestsFit(e: Endpoint) returns (parts: seq<seq<Key>>, size: nat)
    ensures Fitting(e.mtu, 44, 12, size) && Cut(Flat(parts), parts, size)
    ensures |RequestPackets(e)| == |parts|
    ensures forall i :: 0 <= i < |parts| ==> RequestPackets(e)[i] == LinkStateRequest(parts[i])
    ensures forall k :: k in Flat(parts) <==> k in e.requests
    ensures forall i, j :: 0 <= i < j < |Flat(parts)| ==> Flat(parts)[i] < Flat(parts)[j]
  {
    size := Max(SatSub(e.mtu, PACKET_OVERHEAD) / 12, 1);
    parts := Chunks(SortedKeys(e.requests.Keys), size);
    DivFits(e.mtu, 44, 12);
    ChunksCut(SortedKeys(e.requests.Keys), size);
  }

  /** Acknowledgments in order, in packets as full as the MTU allows. */
  lemma AcksFit(acks: seq<LsaHeader>, mtu: nat) returns (parts: seq<seq<LsaHeader>>, size: nat)
    ensures Fitting(mtu, 44, 20, size) && Cut(acks, parts, size)
    ensures |AckPackets(acks, mtu)| == |parts|
    ensures forall i :: 0 <= i < |parts| ==> AckPackets(acks, mtu)[i] == LinkStateAck(parts[i])
  {
    size := Max(SatSub(mtu, PACKET_OVERHEAD) / 20, 1);
    parts := Chunks(acks, size);
    DivFits(mtu, 44, 20);
    ChunksCut(acks, size);
  }

  // -------------------------------------------------------------------------- descriptions

  /** Within our MTU, no unknown flag, and external routing supported. */
  predicate Acceptable(e: Endpoint, d: Body)
    requires d.DatabaseDescription?
  {
    d.mtu <= e.mtu && !d.flags.reserved && d.options % 4 >= 2
  }

  /** A repeat of what this side has taken already. */
  predicate Repeat(e: Endpoint, d: Body)
    requires d.DatabaseDescription?
  {
    if !e.master then d.sequence == e.sequence
    else
      || (d.sequence + 1) % 0x1_0000_0000 == e.sequence % 0x1_0000_0000
      || (e.state != Exchange && d.sequence == e.sequence && !d.flags.init && !d.flags.master)
  }

  /** The next description of the peer. */
  predicate Next(e: Endpoint, d: Body)
    requires d.DatabaseDescription?
  {
    && e.state == Exchange && !d.flags.init && (d.flags.master <==> !e.master)
    && d.sequence == if e.master then e.sequence else (e.sequence + 1) % 0x1_0000_0000
  }

  /** The answer that ends ExStart: the master's opening for the slave, the echo of its number for the master. */
  predicate Opening(e: Endpoint, d: Body)
    requires d.DatabaseDescription?
  {
    if e.master then !d.flags.init && !d.flags.master && d.sequence == e.sequence
    else d.flags == DdFlags(true, true, true, false) && d.headers == []
  }

  /**
   What becomes of a description: unacceptable ones change nothing; in ExStart only the opening
   counts; later a repeat is answered by the slave alone, the next one is taken, and anything
   else starts the exchange over under the next number.
   */
  lemma DescriptionDecides(e: Endpoint, d: Body, db: Database, now: nat)
    requires d.DatabaseDescription? && e.offset <= |e.summary| && d.sequence < 0x1_0000_0000
    ensures var r := Receive(e, d, db, now);
            if !Acceptable(e, d) || (e.state != ExStart && !CanExchange(e)) then r == Outcome(e, [], [])
            else if e.state == ExStart then
              if Opening(e, d) then r.endpoint.state == Exchange else r == Outcome(e, [], [])
            else if Repeat(e, d) then
              r == Outcome(e, if e.master || e.lastDd.None? then [] else [e.lastDd.value], [])
            else if Next(e, d) then r == AcceptDd(e, d, db, now)
            else
              && r.endpoint.state == ExStart && r.endpoint.requests == map[] && r.endpoint.retransmit == map[]
              && r.endpoint.sequence == (e.sequence + 1) % 0x1_0000_0000 && r.endpoint.offset == 0
              && r.endpoint.summary == Summary(db) && r.advertisements == []
              && r.packets == [DatabaseDescription(e.mtu, 2, DdFlags(true, true, true, false), r.endpoint.sequence, [])]
              && r.endpoint.lastDd == Some(r.packets[0]) && r.endpoint.ddDue == SatAdd64(now, 5_000_000)
  {
    RequestHeadersFrame(e.(state := Exchange), d.headers, db);
    if CanExchange(e) {
      RepeatIs(e, d);
    }
    NextIs(e, d);
  }

  lemma RepeatIs(e: Endpoint, d: Body)
    requires d.DatabaseDescription? && CanExchange(e) && d.sequence < 0x1_0000_0000
    ensures Duplicate(e, d) <==> Repeat(e, d)
  {
  }

  lemma NextIs(e: Endpoint, d: Body)
    requires d.DatabaseDescription?
    ensures InStep(e, d) <==> Next(e, d)
  {
  }

  /** Requests, updates and acknowledgments count exactly from Exchange on. */
  lemma IgnoredBefore(e: Endpoint, body: Body, db: Database, now: nat)
    requires e.offset <= |e.summary| && !body.DatabaseDescription?
    requires e.state == Down || e.state == Init || e.state == TwoWay || e.state == ExStart
    ensures Receive(e, body, db, now) == Outcome(e, [], [])
  {
  }

  lemma CountedFrom(e: Endpoint, db: Database, now: nat, keys: seq<Key>, lsas: seq<Lsa>, headers: seq<LsaHeader>)
    requires e.offset <= |e.summary| && (e.state == Exchange || e.state == Loading || e.state == Full)
    ensures Receive(e, LinkStateRequest(keys), db, now) == AnswerRequests(e, keys, [], db, now)
    ensures Receive(e, LinkStateUpdate(lsas), db, now) == ReceiveUpdate(e, lsas, db, now)
    ensures Receive(e, LinkStateAck(headers), db, now) == Outcome(TakeAcks(e, headers), [], [])
  {
  }

  // ---------------------------------------------------------------------- taking a page

  /** A header is requested exactly when neither the database nor the list has it as recent, and there is room. */
  lemma RequestExactly(e: Endpoint, h: LsaHeader, db: Database)
    ensures var lacking := h.key !in db || db[h.key].encoding.None? || Newer(h, db[h.key].Header().value);
            var free := if h.key in e.requests then Newer(h, e.requests[h.key]) else |e.requests| < 4096;
            RequestHeader(e, h, db) == e.(requests := if lacking && free then e.requests[h.key := h] else e.requests)
  {
  }

  /** The next page: as many headers as fit of those not described yet, and whether more follow. */
  lemma PageExactly(e: Endpoint, now: nat) returns (page: seq<LsaHeader>, rest: seq<LsaHeader>, size: nat)
    requires e.offset <= |e.summary|
    ensures Fitting(e.mtu, 52, 20, size) && e.summary[e.offset..] == page + rest
    ensures |page| <= size && (rest != [] ==> |page| == size)
    ensures var s := NextDd(e, now);
            && s.body == DatabaseDescription(e.mtu, 2, DdFlags(false, rest != [], e.master, false), e.sequence, page)
            && s.endpoint == e.(offset := e.offset + |page|, lastDd := Some(s.body), ddDue := SatAdd64(now, 5_000_000))
  {
    var end := NextOffset(e.offset, ChunkSize(e.mtu), |e.summary|);
    PagesFit(e.mtu);
    page, rest, size := e.summary[e.offset..end], e.summary[end..], ChunkSize(e.mtu);
    assert e.summary[e.offset..] == page + rest;
  }

  /** Without requests a side is Full; otherwise it is Loading, asks at once, and again in five seconds. */
  lemma FinishExactly(e: Endpoint, now: nat)
    ensures var f := Finish(e, now);
            if |e.requests| == 0 then f == Ticked(e.(state := Full), [])
            else f == Ticked(e.(state := Loading, requestDue := SatAdd64(now, 5_000_000)), RequestPackets(e))
  {
  }

  /** This side's last description said that more would follow. */
  predicate PromisedMore(e: Endpoint) {
    match e.lastDd
    case Some(DatabaseDescription(_, _, flags, _, _)) => flags.more
    case _ => false
  }

  /**
   What taking the next description does: its headers are requested; the master goes on to its
   next page under the next number unless neither side has more; the slave sends its page under
   the master's number and is done if neither that page nor the description promises more.
   */
  lemma AcceptExactly(e: Endpoint, d: Body, db: Database, now: nat)
    requires d.DatabaseDescription? && e.offset <= |e.summary| && e.sequence < 0x1_0000_0000
    ensures var r, taken := AcceptDd(e, d, db, now), RequestHeaders(e, d.headers, db).requests;
            var asked := e.(requests := taken);
            var number := if e.master then (e.sequence + 1) % 0x1_0000_0000 else d.sequence;
            var page := NextDd(asked.(sequence := number), now);
            && r.advertisements == []
            && if e.master then
                 if PromisedMore(e) || d.flags.more then r == Outcome(page.endpoint, [page.body], [])
                 else r == Outcome(Finish(asked, now).endpoint, Finish(asked, now).packets, [])
               else if page.body.flags.more || d.flags.more then r == Outcome(page.endpoint, [page.body], [])
               else r == Outcome(Finish(page.endpoint, now).endpoint,
                                 [page.body] + Finish(page.endpoint, now).packets, [])
  {
    RequestHeadersFrame(e, d.headers, db);
  }

  /** The opening: the slave takes the master's number, the master requests what is described and moves on. */
  lemma OpeningExactly(e: Endpoint, d: Body, db: Database, now: nat)
    requires d.DatabaseDescription? && e.offset <= |e.summary| && e.sequence < 0x1_0000_0000
    requires Acceptable(e, d) && e.state == ExStart && Opening(e, d)
    ensures var begun := if e.master then
                           e.(state := Exchange, sequence := (e.sequence + 1) % 0x1_0000_0000,
                              requests := RequestHeaders(e.(state := Exchange), d.headers, db).requests)
                         else e.(state := Exchange, sequence := d.sequence);
            var page := NextDd(begun, now);
            Receive(e, d, db, now) == Outcome(page.endpoint, [page.body], [])
  {
    RequestHeadersFrame(e.(state := Exchange), d.headers, db);
  }

  // -------------------------------------------------------------------- updates and timers

  /** The last update that was asked for ends Loading; acknowledgments follow what is sent back. */
  lemma UpdateEndsLoading(e: Endpoint, lsas: seq<Lsa>, db: Database, now: nat)
    ensures var r, f := ReceiveUpdate(e, lsas, db, now), TakeUpdates(Intake(e, [], [], []), lsas, db, now);
            var done := e.state == Loading && |f.endpoint.requests| == 0;
            && r.endpoint == f.endpoint.(state := if done then Full else e.state)
            && r.packets == f.packets + AckPackets(f.acks, e.mtu) && r.advertisements == f.advertisements
  {
    TakeUpdatesFrame(Intake(e, [], [], []), lsas, db, now);
  }

  /**
   A tick repeats the last description in ExStart and, for the master, in Exchange; in Loading it
   asks again; each when due, and then not again for five seconds.
   */
  lemma TickExactly(e: Endpoint, now: nat) returns (updates: seq<Body>)
    ensures var t := Tick(e, now);
            var resend := (e.state == ExStart || (e.state == Exchange && e.master)) && e.ddDue <= now && e.lastDd.Some?;
            var ask := e.state == Loading && e.requestDue <= now;
            && t.packets
               == (if resend then [e.lastDd.value] else []) + (if ask then RequestPackets(e) else []) + updates
            && t.endpoint == e.(ddDue := if resend then SatAdd64(now, 5_000_000) else e.ddDue,
                                requestDue := if ask then SatAdd64(now, 5_000_000) else e.requestDue,
                                retransmit := t.endpoint.retransmit)
            && t.endpoint.retransmit.Keys == e.retransmit.Keys
    ensures forall u :: u in updates ==> exists k :: k in e.retransmit && e.retransmit[k].due <= now
                                                      && u == LinkStateUpdate([e.retransmit[k].lsa])
  {
    var keys := SortedKeys(e.retransmit.Keys);
    updates := DueUpdates(keys, |keys|, e.retransmit, now);
    OnlyDueAreSent(keys, |keys|, e.retransmit, now);
  }

  lemma {:induction false} OnlyDueAreSent(keys: seq<Key>, n: nat, pending: map<Key, Pending>, now: nat)
    requires n <= |keys| && forall k :: k in keys ==> k in pending
    ensures forall u :: u in DueUpdates(keys, n, pending, now) ==>
              exists k :: k in pending && pending[k].due <= now && u == LinkStateUpdate([pending[k].lsa])
    decreases n
  {
    if n > 0 {
      OnlyDueAreSent(keys, n - 1, pending, now);
      assert keys[n - 1] in pending;
    }
  }
}
