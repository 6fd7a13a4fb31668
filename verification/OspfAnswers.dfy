/**
 What one side of an exchange sends and owes: which advertisements answer a request, how long
 each is retransmitted, what an update is answered with, and when the request list empties.
 */
module OspfAnswers {
  import opened Prelude
  import opened OspfLsa
  import opened ExchangeSpec
  import opened OspfRequests

  /** The advertisement encodes, and one update packet can carry it. */
  predicate Sendable(lsa: Lsa, mtu: nat) {
    lsa.encoding.Some? && lsa.encoding.value.length + 48 <= mtu
  }

  /** Whatever of the database is sent, the retransmission list stays within its limit. */
  ghost predicate HasRoom(e: Endpoint, db: Database) {
    |e.retransmit.Keys + db.Keys| <= 4096
  }

  lemma SubsetIsSmaller(a: set<Key>, b: set<Key>)
    requires a <= b
    ensures |a| <= |b|
  {
    assert b == a + (b - a);
  }

  /** An advertisement is sent and recorded for five seconds exactly when it is sendable and listed or there is room. */
  lemma FloodExactly(e: Endpoint, lsa: Lsa, now: nat)
    requires CanExchange(e)
    ensures var f := Flood(e, lsa, now);
            if Sendable(lsa, e.mtu) && (lsa.key in e.retransmit || |e.retransmit| < 4096) then
              && f.body == Some(LinkStateUpdate([lsa]))
              && f.endpoint == e.(retransmit := e.retransmit[lsa.key := Pending(lsa, SatAdd64(now, 5_000_000))])
            else f == Flooded(e, None)
  {
  }

  lemma RoomForOne(e: Endpoint, db: Database, k: Key)
    requires HasRoom(e, db) && k in db
    ensures k in e.retransmit || |e.retransmit| < 4096
  {
    if k !in e.retransmit {
      SubsetIsSmaller(e.retransmit.Keys + {k}, e.retransmit.Keys + db.Keys);
    }
  }

  // ----------------------------------------------------------------------------- requests

  /** One update for each requested advertisement that can be sent, in the order of the request. */
  function Replies(keys: seq<Key>, db: Database, mtu: nat): seq<Body>
    requires forall k :: k in keys ==> k in db
  {
    if keys == [] then []
    else ReplyTo(db[keys[0]], mtu) + Replies(keys[1..], db, mtu)
  }

  /** A sent advertisement is owed an acknowledgment; any other key is as before. */
  ghost predicate Owes(e: Endpoint, r: Endpoint, keys: seq<Key>, db: Database, now: nat, k: Key)
    requires k in keys ==> k in db
  {
    if k in keys && Sendable(db[k], e.mtu) then
      k in r.retransmit && r.retransmit[k] == Pending(db[k], SatAdd64(now, 5_000_000))
    else
      (k in r.retransmit <==> k in e.retransmit) && (k in e.retransmit ==> r.retransmit[k] == e.retransmit[k])
  }

  lemma FloodKeepsRoom(e: Endpoint, lsa: Lsa, db: Database, now: nat)
    requires lsa.key in db && HasRoom(e, db)
    ensures HasRoom(Flood(e, lsa, now).endpoint, db)
  {
    SubsetIsSmaller(Flood(e, lsa, now).endpoint.retransmit.Keys + db.Keys, e.retransmit.Keys + db.Keys);
  }

  /** The packet that answers one key, if any. */
  function ReplyTo(lsa: Lsa, mtu: nat): seq<Body> {
    if Sendable(lsa, mtu) then [LinkStateUpdate([lsa])] else []
  }

  /** Answering the first key: what is sent, and what is left to answer. */
  lemma AnswerFirst(e: Endpoint, keys: seq<Key>, packets: seq<Body>, db: Database, now: nat) returns (f: Endpoint)
    requires CanExchange(e) && WellKeyed(db) && HasRoom(e, db) && keys != [] && keys[0] in db
    ensures f == Flood(e, db[keys[0]], now).endpoint && CanExchange(f) && HasRoom(f, db) && f.mtu == e.mtu
    ensures AnswerRequests(e, keys, packets, db, now)
            == AnswerRequests(f, keys[1..], packets + ReplyTo(db[keys[0]], e.mtu), db, now)
  {
    var lsa := db[keys[0]];
    RoomForOne(e, db, keys[0]);
    FloodExactly(e, lsa, now);
    FloodKeepsRoom(e, lsa, db, now);
    f := Flood(e, lsa, now).endpoint;
  }

  lemma Associates(a: seq<Body>, b: seq<Body>, c: seq<Body>)
    ensures a + b + c == a + (b + c)
  {
  }

  lemma {:induction false} AnswersSend(e: Endpoint, keys: seq<Key>, packets: seq<Body>, db: Database, now: nat)
    requires CanExchange(e) && WellKeyed(db) && HasRoom(e, db) && forall k :: k in keys ==> k in db
    ensures AnswerRequests(e, keys, packets, db, now).packets == packets + Replies(keys, db, e.mtu)
    ensures AnswerRequests(e, keys, packets, db, now).advertisements == []
    decreases |keys|
  {
    if keys != [] {
      var f := AnswerFirst(e, keys, packets, db, now);
      var sent := ReplyTo(db[keys[0]], e.mtu);
      AnswersSend(f, keys[1..], packets + sent, db, now);
      Associates(packets, sent, Replies(keys[1..], db, e.mtu));
    }
  }

  lemma {:induction false} AnswersOwe(e: Endpoint, keys: seq<Key>, packets: seq<Body>, db: Database, now: nat, k: Key)
    requires CanExchange(e) && WellKeyed(db) && HasRoom(e, db) && forall x :: x in keys ==> x in db
    ensures Owes(e, AnswerRequests(e, keys, packets, db, now).endpoint, keys, db, now, k)
    decreases |keys|
  {
    if keys != [] {
      var lsa := db[keys[0]];
      RoomForOne(e, db, keys[0]);
      FloodExactly(e, lsa, now);
      FloodKeepsRoom(e, lsa, db, now);
      var f := Flood(e, lsa, now);
      AnswersOwe(f.endpoint, keys[1..], packets + (if f.body.Some? then [f.body.value] else []), db, now, k);
      assert k in keys <==> k == keys[0] || k in keys[1..];
    }
  }

  /**
   A request for known keys is answered with exactly one update for each advertisement that can
   be sent, in order, each recorded for retransmission.
   */
  lemma RequestsAreAnswered(e: Endpoint, keys: seq<Key>, db: Database, now: nat)
    requires CanExchange(e) && WellKeyed(db) && HasRoom(e, db) && forall k :: k in keys ==> k in db
    requires e.offset <= |e.summary|
    ensures var r := Receive(e, LinkStateRequest(keys), db, now);
            && r.packets == Replies(keys, db, e.mtu) && r.advertisements == []
            && r.endpoint == e.(retransmit := r.endpoint.retransmit)
            && forall k :: Owes(e, r.endpoint, keys, db, now, k)
  {
    AnswersSend(e, keys, [], db, now);
    AnswerRequestsFrame(e, keys, [], db, now);
    forall k ensures Owes(e, Receive(e, LinkStateRequest(keys), db, now).endpoint, keys, db, now, k) {
      AnswersOwe(e, keys, [], db, now, k);
    }
  }

  lemma {:induction false} ReplyOf(keys: seq<Key>, db: Database, mtu: nat, k: Key)
    requires (forall x :: x in keys ==> x in db) && k in keys && Sendable(db[k], mtu)
    ensures LinkStateUpdate([db[k]]) in Replies(keys, db, mtu)
    decreases |keys|
  {
    if k != keys[0] {
      ReplyOf(keys[1..], db, mtu, k);
    }
  }

  // ---------------------------------------------------------------------- acknowledgments

  /** The header acknowledges this very instance. */
  predicate Acknowledges(h: LsaHeader, p: Pending) {
    p.lsa.Header().Some? && Compare(h, p.lsa.Header().value) == Equal
  }

  /** An advertisement leaves the list exactly when a header of its key compares equal to it. */
  lemma {:induction false} AcknowledgedExactly(e: Endpoint, headers: seq<LsaHeader>, k: Key)
    ensures var r := TakeAcks(e, headers);
            && (k in r.retransmit <==>
                  k in e.retransmit && !exists h :: h in headers && h.key == k && Acknowledges(h, e.retransmit[k]))
            && (k in r.retransmit ==> r.retransmit[k] == e.retransmit[k])
    decreases |headers|
  {
    if headers != [] {
      AcknowledgedExactly(TakeAck(e, headers[0]), headers[1..], k);
      assert forall h :: h in headers <==> h == headers[0] || h in headers[1..];
    }
  }

  lemma {:induction false} DueUpdateSent(keys: seq<Key>, n: nat, pending: map<Key, Pending>, now: nat, j: nat)
    requires n <= |keys| && (forall k :: k in keys ==> k in pending) && j < n && pending[keys[j]].due <= now
    ensures LinkStateUpdate([pending[keys[j]].lsa]) in DueUpdates(keys, n, pending, now)
    decreases n
  {
    if j < n - 1 {
      DueUpdateSent(keys, n - 1, pending, now, j);
    }
  }

  /** Until then a tick keeps it, sends it again whenever it is due, and waits five more seconds. */
  lemma TickResends(e: Endpoint, now: nat, k: Key)
    requires k in e.retransmit
    ensures var t := Tick(e, now); var p := e.retransmit[k];
            && k in t.endpoint.retransmit && t.endpoint.retransmit[k].lsa == p.lsa
            && t.endpoint.retransmit[k].due == (if p.due <= now then SatAdd64(now, 5_000_000) else p.due)
            && (p.due <= now ==> LinkStateUpdate([p.lsa]) in t.packets)
  {
    var keys := SortedKeys(e.retransmit.Keys);
    assert k in keys;
    var j :| 0 <= j < |keys| && keys[j] == k;
    if e.retransmit[k].due <= now {
      DueUpdateSent(keys, |keys|, e.retransmit, now, j);
    }
  }

  // ------------------------------------------------------------------------------ updates

  /** What one advertisement of an update does: refused, taken and acknowledged, or answered with ours. */
  lemma UpdateExactly(f: Intake, lsa: Lsa, db: Database, now: nat)
    requires lsa.Header().Some? && WellKeyed(db) && CanExchange(f.endpoint)
    ensures var h := lsa.Header().value; var r := TakeUpdate(f, lsa, db, now); var held := Held(db, h.key);
            if h.key in f.endpoint.requests && Newer(f.endpoint.requests[h.key], h) then r == f
            else if held.Some? && Newer(held.value, h) then
              && r.endpoint.requests == f.endpoint.requests - {h.key}
              && r.acks == f.acks && r.advertisements == f.advertisements
              && (HasRoom(f.endpoint, db) && Sendable(db[h.key], f.endpoint.mtu) ==>
                    r.packets == f.packets + [LinkStateUpdate([db[h.key]])])
            else
              && r.endpoint == f.endpoint.(requests := f.endpoint.requests - {h.key})
              && r.acks == f.acks + [h] && r.advertisements == f.advertisements + [lsa] && r.packets == f.packets
  {
    var h := lsa.Header().value;
    var held := Held(db, h.key);
    if h.key in f.endpoint.requests {
      CompareAntisymmetric(h, f.endpoint.requests[h.key]);
    }
    if held.Some? {
      CompareAntisymmetric(h, held.value);
      if HasRoom(f.endpoint, db) {
        RoomForOne(f.endpoint, db, h.key);
      }
    }
  }
}
