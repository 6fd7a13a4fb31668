/** The mutable exchange object of one adjacency, proved against `ExchangeSpec`. */
module Adjacency {
  import opened Prelude
  import opened OspfLsa
  import opened ExchangeSpec

  class OspfExchange {
    var state: NeighborState
    const master: bool
    const mtu: nat
    var sequence: nat
    var summary: seq<LsaHeader>
    var offset: nat
    var lastDd: Option<Body>
    var ddDue: nat
    var requests: map<Key, LsaHeader>
    var requestDue: nat
    var retransmit: map<Key, Pending>

    ghost function Value(): Endpoint
      reads this
    {
      Endpoint(state, master, mtu, sequence, summary, offset, lastDd, ddDue, requests, requestDue, retransmit)
    }

    ghost predicate Valid()
      reads this
    {
      offset <= |summary|
    }

    /** `master` is whether the local router id is the larger one. */
    constructor (master: bool, mtu: nat, sequence: nat)
      ensures Valid() && Value() == NewEndpoint(master, mtu, sequence)
    {
      this.master, this.mtu, this.sequence := master, mtu, sequence;
      state, summary, offset, lastDd, ddDue := ExStart, [], 0, None, 0;
      requests, requestDue, retransmit := map[], 0, map[];
    }

    method SendDd(flags: DdFlags, headers: seq<LsaHeader>, now: nat) returns (body: Body)
      modifies this
      ensures Sent(Value(), body) == ExchangeSpec.SendDd(old(Value()), flags, headers, now)
    {
      body := DatabaseDescription(mtu, OPTIONS, flags, sequence, headers);
      lastDd := Some(body);
      ddDue := SatAdd64(now, RETRANSMIT_US);
    }

    method Start(db: Database, now: nat) returns (body: Body)
      modifies this
      ensures Valid() && Sent(Value(), body) == ExchangeSpec.Start(old(Value()), db, now)
    {
      state := ExStart;
      var keys := KeysInOrder(db.Keys);
      summary := HeadersOf(keys, db);
      if |summary| > OSPF_DATABASE_LIMIT {
        summary := summary[..OSPF_DATABASE_LIMIT];
      }
      offset := 0;
      requests := map[];
      retransmit := map[];
      body := SendDd(INITIAL_FLAGS, [], now);
    }

    method NextDd(now: nat) returns (body: Body)
      requires Valid()
      modifies this
      ensures Valid() && Sent(Value(), body) == ExchangeSpec.NextDd(old(Value()), now)
    {
      var end := NextOffset(offset, ChunkSize(mtu), |summary|);
      var headers := summary[offset..end];
      offset := end;
      body := SendDd(DdFlags(false, end < |summary|, master, false), headers, now);
    }

    method RequestHeaders(headers: seq<LsaHeader>, db: Database)
      modifies this`requests
      ensures Value() == ExchangeSpec.RequestHeaders(old(Value()), headers, db)
    {
      var i := 0;
      while i < |headers|
        invariant 0 <= i <= |headers|
        invariant ExchangeSpec.RequestHeaders(Value(), headers[i..], db)
                  == ExchangeSpec.RequestHeaders(old(Value()), headers, db)
      {
        var header := headers[i];
        ghost var before := Value();
        var wanted := Held(db, header.key);
        if (wanted.None? || Newer(header, wanted.value))
           && (|requests| < OSPF_DATABASE_LIMIT || header.key in requests)
        {
          if header.key !in requests || Newer(header, requests[header.key]) {
            requests := requests[header.key := header];
          }
        }
        assert Value() == RequestHeader(before, header, db);
        assert headers[i..][1..] == headers[i + 1..];
        i := i + 1;
      }
    }

    method Finish(now: nat) returns (packets: seq<Body>)
      modifies this
      ensures Ticked(Value(), packets) == ExchangeSpec.Finish(old(Value()), now)
    {
      packets := [];
      if requests == map[] {
        state := Full;
      } else {
        state := Loading;
        packets := RequestPackets();
        requestDue := SatAdd64(now, RETRANSMIT_US);
      }
    }

    method RequestPackets() returns (packets: seq<Body>)
      ensures packets == ExchangeSpec.RequestPackets(Value())
    {
      var keys := KeysInOrder(requests.Keys);
      var chunks := Chunks(keys, Max(SatSub(mtu, PACKET_OVERHEAD) / 12, 1));
      packets := seq(|chunks|, i requires 0 <= i < |chunks| => LinkStateRequest(chunks[i]));
    }

    method Flood(lsa: Lsa, now: nat) returns (body: Option<Body>)
      modifies this`retransmit
      ensures Flooded(Value(), body) == ExchangeSpec.Flood(old(Value()), lsa, now)
    {
      if (state != Exchange && state != Loading && state != Full) || lsa.encoding.None?
         || lsa.encoding.value.length + PACKET_OVERHEAD + 4 > mtu
         || (|retransmit| >= OSPF_DATABASE_LIMIT && lsa.key !in retransmit)
      {
        return None;
      }
      retransmit := retransmit[lsa.key := Pending(lsa, SatAdd64(now, RETRANSMIT_US))];
      body := Some(LinkStateUpdate([lsa]));
    }

    method Restart(db: Database, now: nat) returns (packets: seq<Body>)
      modifies this
      ensures Valid() && Outcome(Value(), packets, []) == ExchangeSpec.Restart(old(Value()), db, now)
    {
      sequence := Wrap32(sequence + 1);
      var body := Start(db, now);
      packets := [body];
    }

    method Negotiate(d: Body, db: Database, now: nat) returns (packets: seq<Body>)
      requires Valid() && d.DatabaseDescription?
      modifies this
      ensures Valid() && Outcome(Value(), packets, []) == ExchangeSpec.Negotiate(old(Value()), d, db, now)
    {
      packets := [];
      if !master && d.flags == INITIAL_FLAGS && d.headers == [] {
        sequence := d.sequence;
        state := Exchange;
        var body := NextDd(now);
        packets := [body];
      } else if master && !d.flags.init && !d.flags.master && d.sequence == sequence {
        state := Exchange;
        RequestHeadersFrame(Value(), d.headers, db);
        RequestHeaders(d.headers, db);
        sequence := Wrap32(sequence + 1);
        var body := NextDd(now);
        packets := [body];
      }
    }

    method AcceptDd(d: Body, db: Database, now: nat) returns (packets: seq<Body>)
      requires Valid() && d.DatabaseDescription?
      modifies this
      ensures Valid() && Outcome(Value(), packets, []) == ExchangeSpec.AcceptDd(old(Value()), d, db, now)
    {
      RequestHeadersFrame(Value(), d.headers, db);
      RequestHeaders(d.headers, db);
      if master {
        var sentMore := lastDd.Some? && lastDd.value.DatabaseDescription? && lastDd.value.flags.more;
        if !sentMore && !d.flags.more {
          packets := Finish(now);
        } else {
          sequence := Wrap32(sequence + 1);
          var body := NextDd(now);
          packets := [body];
        }
      } else {
        sequence := d.sequence;
        var body := NextDd(now);
        packets := [body];
        if offset == |summary| && !d.flags.more {
          var more := Finish(now);
          packets := packets + more;
        }
      }
    }

    method ReceiveDd(d: Body, db: Database, now: nat) returns (packets: seq<Body>)
      requires Valid() && d.DatabaseDescription?
      modifies this
      ensures Valid() && Outcome(Value(), packets, []) == ExchangeSpec.ReceiveDd(old(Value()), d, db, now)
    {
      packets := [];
      if d.mtu > mtu || d.flags.reserved || (d.options / OPTIONS) % 2 != 1 {
        return;
      }
      if state == ExStart {
        packets := Negotiate(d, db, now);
        return;
      }
      if state != Exchange && state != Loading && state != Full {
        return;
      }
      if !master && d.sequence == sequence {
        if lastDd.Some? {
          packets := [lastDd.value];
        }
        return;
      }
      if master && (state == Loading || state == Full) && d.sequence == sequence
         && !d.flags.init && !d.flags.master
      {
        return;
      }
      if master && d.sequence == Wrap32(sequence - 1) {
        return;
      }
      var expected := if master then sequence else Wrap32(sequence + 1);
      if d.flags.init || d.flags.master == master || d.sequence != expected || state != Exchange {
        packets := Restart(db, now);
      } else {
        packets := AcceptDd(d, db, now);
      }
    }

    method AnswerRequests(keys: seq<Key>, db: Database, now: nat) returns (packets: seq<Body>)
      requires Valid()
      modifies this
      ensures Valid() && Outcome(Value(), packets, []) == ExchangeSpec.AnswerRequests(old(Value()), keys, [], db, now)
    {
      packets := [];
      var i := 0;
      while i < |keys|
        invariant 0 <= i <= |keys|
        invariant Valid()
        invariant ExchangeSpec.AnswerRequests(Value(), keys[i..], packets, db, now)
                  == ExchangeSpec.AnswerRequests(old(Value()), keys, [], db, now)
      {
        if keys[i] !in db {
          packets := Restart(db, now);
          return;
        }
        var packet := Flood(db[keys[i]], now);
        packets := packets + if packet.Some? then [packet.value] else [];
        assert keys[i..][1..] == keys[i + 1..];
        i := i + 1;
      }
    }

    /** One advertisement of an update: satisfy its request, then acknowledge or answer with the newer copy. */
    method TakeUpdate(lsa: Lsa, db: Database, now: nat, acks: seq<LsaHeader>, packets: seq<Body>, offered: seq<Lsa>)
      returns (acks': seq<LsaHeader>, packets': seq<Body>, offered': seq<Lsa>)
      modifies this`requests, this`retransmit
      ensures Intake(Value(), acks', packets', offered')
              == ExchangeSpec.TakeUpdate(Intake(old(Value()), acks, packets, offered), lsa, db, now)
    {
      acks', packets', offered' := acks, packets, offered;
      var header := lsa.Header();
      if header.None? {
        return;
      }
      var h := header.value;
      if h.key in requests {
        if Compare(h, requests[h.key]) == Less {
          return;
        }
        requests := requests - {h.key};
      }
      assert old(requests) - {h.key} == requests;
      var held := Held(db, h.key);
      if held.None? || Compare(h, held.value) != Less {
        acks' := acks + [h];
        offered' := offered + [lsa];
      } else {
        var packet := Flood(db[h.key], now);
        if packet.Some? {
          packets' := packets + [packet.value];
        }
      }
    }

    method ReceiveUpdate(lsas: seq<Lsa>, db: Database, now: nat)
      returns (packets: seq<Body>, advertisements: seq<Lsa>)
      requires Valid()
      modifies this
      ensures Valid()
      ensures Outcome(Value(), packets, advertisements) == ExchangeSpec.ReceiveUpdate(old(Value()), lsas, db, now)
    {
      var acks: seq<LsaHeader> := [];
      packets, advertisements := [], [];
      ghost var whole := TakeUpdates(Intake(Value(), [], [], []), lsas, db, now);
      var i := 0;
      while i < |lsas|
        invariant 0 <= i <= |lsas|
        invariant Valid()
        invariant TakeUpdates(Intake(Value(), acks, packets, advertisements), lsas[i..], db, now) == whole
      {
        ghost var before := Intake(Value(), acks, packets, advertisements);
        acks, packets, advertisements := TakeUpdate(lsas[i], db, now, acks, packets, advertisements);
        assert Intake(Value(), acks, packets, advertisements) == ExchangeSpec.TakeUpdate(before, lsas[i], db, now);
        assert lsas[i..][1..] == lsas[i + 1..];
        i := i + 1;
      }
      var chunks := Chunks(acks, Max(SatSub(mtu, PACKET_OVERHEAD) / 20, 1));
      packets := packets + seq(|chunks|, i requires 0 <= i < |chunks| => LinkStateAck(chunks[i]));
      if state == Loading && requests == map[] {
        state := Full;
      }
    }

    method ReceiveAck(headers: seq<LsaHeader>)
      modifies this`retransmit
      ensures Value() == TakeAcks(old(Value()), headers)
    {
      var i := 0;
      while i < |headers|
        invariant 0 <= i <= |headers|
        invariant TakeAcks(Value(), headers[i..]) == TakeAcks(old(Value()), headers)
      {
        var key := headers[i].key;
        ghost var before := Value();
        if key in retransmit {
          var sent := retransmit[key].lsa.Header();
          if sent.Some? && Compare(headers[i], sent.value) == Equal {
            retransmit := retransmit - {key};
          }
        }
        assert Value() == TakeAck(before, headers[i]);
        assert headers[i..][1..] == headers[i + 1..];
        i := i + 1;
      }
    }

    /** Consume one body from the neighbor; the caller has checked area and source. */
    method Receive(body: Body, db: Database, now: nat) returns (packets: seq<Body>, advertisements: seq<Lsa>)
      requires Valid()
      modifies this
      ensures Valid()
      ensures Outcome(Value(), packets, advertisements) == ExchangeSpec.Receive(old(Value()), body, db, now)
    {
      packets, advertisements := [], [];
      var exchanging := state == Exchange || state == Loading || state == Full;
      match body {
        case DatabaseDescription(_, _, _, _, _) =>
          packets := ReceiveDd(body, db, now);
        case LinkStateRequest(keys) =>
          if exchanging { packets := AnswerRequests(keys, db, now); }
        case LinkStateUpdate(lsas) =>
          if exchanging { packets, advertisements := ReceiveUpdate(lsas, db, now); }
        case LinkStateAck(headers) =>
          if exchanging { ReceiveAck(headers); }
        case Hello =>
      }
    }

    method NextDeadline() returns (deadline: Option<nat>)
      ensures deadline == ExchangeSpec.NextDeadline(Value())
    {
      var due := (if state == ExStart || (state == Exchange && master) then {ddDue} else {})
                 + (if state == Loading then {requestDue} else {})
                 + (set k | k in retransmit :: retransmit[k].due);
      assert due == Deadlines(Value());
      deadline := if due == {} then None else Some(Minimum(due));
    }

    method ResendDd(now: nat) returns (packets: seq<Body>)
      modifies this`ddDue
      ensures var e := old(Value());
              var resend := DdTimer(e) && e.ddDue <= now && e.lastDd.Some?;
              && packets == (if resend then [e.lastDd.value] else [])
              && ddDue == (if resend then SatAdd64(now, RETRANSMIT_US) else e.ddDue)
    {
      packets := [];
      if (state == ExStart || (state == Exchange && master)) && ddDue <= now && lastDd.Some? {
        packets := [lastDd.value];
        ddDue := SatAdd64(now, RETRANSMIT_US);
      }
    }

    method ResendRequests(now: nat) returns (packets: seq<Body>)
      modifies this`requestDue
      ensures var e := old(Value());
              var ask := e.state == Loading && e.requestDue <= now;
              && packets == (if ask then ExchangeSpec.RequestPackets(e) else [])
              && requestDue == (if ask then SatAdd64(now, RETRANSMIT_US) else e.requestDue)
    {
      packets := [];
      if state == Loading && requestDue <= now {
        packets := RequestPackets();
        requestDue := SatAdd64(now, RETRANSMIT_US);
      }
    }

    /** Emit what is due at `now` and re-arm it. */
    method Tick(now: nat) returns (packets: seq<Body>)
      requires Valid()
      modifies this
      ensures Valid() && Ticked(Value(), packets) == ExchangeSpec.Tick(old(Value()), now)
    {
      var dd := ResendDd(now);
      var asks := ResendRequests(now);
      var keys := KeysInOrder(retransmit.Keys);
      var updates := ResendUpdates(keys, now);
      packets := dd + asks + updates;
    }

    method ResendUpdate(key: Key, now: nat) returns (packets: seq<Body>)
      requires key in retransmit
      modifies this`retransmit
      ensures var p := old(retransmit)[key];
              && retransmit == old(retransmit)[key := RearmOne(p, now)]
              && packets == (if p.due <= now then [LinkStateUpdate([p.lsa])] else [])
    {
      packets := [];
      if retransmit[key].due <= now {
        packets := [LinkStateUpdate([retransmit[key].lsa])];
        retransmit := retransmit[key := retransmit[key].(due := SatAdd64(now, RETRANSMIT_US))];
      }
    }

    method ResendUpdates(keys: seq<Key>, now: nat) returns (packets: seq<Body>)
      requires forall k :: k in keys <==> k in retransmit
      requires forall i, j :: 0 <= i < j < |keys| ==> keys[i] != keys[j]
      modifies this`retransmit
      ensures retransmit == Rearm(old(retransmit), now)
      ensures packets == DueUpdates(keys, |keys|, old(retransmit), now)
    {
      packets := [];
      ghost var start := retransmit;
      var i := 0;
      while i < |keys|
        invariant 0 <= i <= |keys|
        invariant retransmit.Keys == start.Keys
        invariant forall j :: 0 <= j < i ==> retransmit[keys[j]] == RearmOne(start[keys[j]], now)
        invariant forall j :: i <= j < |keys| ==> retransmit[keys[j]] == start[keys[j]]
        invariant packets == DueUpdates(keys, i, start, now)
      {
        var key := keys[i];
        var due := ResendUpdate(key, now);
        packets := packets + due;
        i := i + 1;
      }
      RearmedOnKeys(start, retransmit, keys, now);
    }
  }

  lemma RearmedOnKeys(start: map<Key, Pending>, done: map<Key, Pending>, keys: seq<Key>, now: nat)
    requires start.Keys == done.Keys && forall k :: k in keys <==> k in start
    requires forall j :: 0 <= j < |keys| ==> done[keys[j]] == RearmOne(start[keys[j]], now)
    ensures done == Rearm(start, now)
  {
  }
}
