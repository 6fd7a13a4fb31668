/**
 The request list of one side against the headers it has accepted: every accepted header is
 still requested, or an instance not older than it has been seen. "Same instance" not being
 transitive, the proofs rest on "strictly newer" alone.
 */
module OspfRequests {
  import opened Prelude
  import opened OspfLsa
  import opened ExchangeSpec

  ghost predicate UniqueKeys(headers: seq<LsaHeader>) {
    forall a, b :: 0 <= a < b < |headers| ==> headers[a].key != headers[b].key
  }

  /** Readable headers of a database. */
  ghost function HeaderSet(db: Database): set<LsaHeader> {
    set k | k in db && db[k].Header().Some? :: db[k].Header().value
  }

  ghost function OfferedHeaders(lsas: seq<Lsa>): set<LsaHeader> {
    set i | 0 <= i < |lsas| && lsas[i].Header().Some? :: lsas[i].Header().value
  }

  /** A database is keyed by the identity of its entries. */
  ghost predicate WellKeyed(db: Database) {
    forall k :: k in db ==> db[k].key == k
  }

  /** Requests are for accepted headers, verbatim. */
  ghost predicate RequestsAccepted(requests: map<Key, LsaHeader>, accepted: seq<LsaHeader>) {
    forall k :: k in requests ==> requests[k].key == k && requests[k] in accepted
  }

  /** `seen` holds an instance not older than `h`. */
  ghost predicate AsRecent(h: LsaHeader, seen: set<LsaHeader>) {
    exists x :: x in seen && x.key == h.key && !Newer(h, x)
  }

  ghost predicate Covered(accepted: seq<LsaHeader>, requests: map<Key, LsaHeader>, seen: set<LsaHeader>) {
    forall h :: h in accepted ==> (h.key in requests && requests[h.key] == h) || AsRecent(h, seen)
  }

  lemma CoveredMonotone(accepted: seq<LsaHeader>, requests: map<Key, LsaHeader>,
                        seen: set<LsaHeader>, more: set<LsaHeader>)
    requires Covered(accepted, requests, seen) && seen <= more
    ensures Covered(accepted, requests, more)
  {
  }

  /** Distinct keys bound the list, so the request limit never discards a header. */
  lemma RequestsBounded(requests: map<Key, LsaHeader>, accepted: seq<LsaHeader>)
    requires RequestsAccepted(requests, accepted)
    ensures |requests| <= |accepted|
    decreases |accepted|
  {
    if accepted == [] {
      if k :| k in requests { assert false; }
      assert requests == map[];
    } else {
      var last := accepted[|accepted| - 1];
      var front := accepted[..|accepted| - 1];
      assert accepted == front + [last];
      var rest := requests - {last.key};
      forall k | k in rest ensures rest[k].key == k && rest[k] in front {
        assert rest[k] in accepted;
      }
      RequestsBounded(rest, front);
      assert rest.Keys == requests.Keys - {last.key};
      assert |requests.Keys - {last.key}| >= |requests.Keys| - 1;
    }
  }

  lemma RequestOne(e: Endpoint, h: LsaHeader, db: Database, accepted: seq<LsaHeader>, seen: set<LsaHeader>)
    requires UniqueKeys(accepted + [h]) && |accepted| < OSPF_DATABASE_LIMIT
    requires RequestsAccepted(e.requests, accepted) && Covered(accepted, e.requests, seen)
    requires WellKeyed(db) && HeaderSet(db) <= seen
    ensures var r := RequestHeader(e, h, db);
            RequestsAccepted(r.requests, accepted + [h]) && Covered(accepted + [h], r.requests, seen)
  {
    RequestsBounded(e.requests, accepted);
    var all := accepted + [h];
    forall x | x in accepted ensures x.key != h.key {
      var i :| 0 <= i < |accepted| && accepted[i] == x;
      assert all[i] == x && all[|accepted|] == h;
    }
    var r := RequestHeader(e, h, db);
    if h.key !in r.requests {
      var held := Held(db, h.key);
      assert held.value in HeaderSet(db);
      assert AsRecent(h, seen);
    }
  }

  /** Accepting one more page keeps every accepted header covered. */
  lemma RequestPage(e: Endpoint, page: seq<LsaHeader>, db: Database, accepted: seq<LsaHeader>, seen: set<LsaHeader>)
    requires UniqueKeys(accepted + page) && |accepted + page| <= OSPF_DATABASE_LIMIT
    requires RequestsAccepted(e.requests, accepted) && Covered(accepted, e.requests, seen)
    requires WellKeyed(db) && HeaderSet(db) <= seen
    ensures var r := RequestHeaders(e, page, db);
            RequestsAccepted(r.requests, accepted + page) && Covered(accepted + page, r.requests, seen)
    decreases |page|
  {
    if page == [] {
      assert accepted + page == accepted;
    } else {
      assert accepted + page == (accepted + [page[0]]) + page[1..];
      var whole, part := accepted + page, accepted + [page[0]];
      forall a, b | 0 <= a < b < |part| ensures part[a].key != part[b].key {
        assert part[a] == whole[a] && part[b] == whole[b];
      }
      RequestOne(e, page[0], db, accepted, seen);
      RequestPage(RequestHeader(e, page[0], db), page[1..], db, part, seen);
    }
  }

  /**
   An update leaves the list only with an instance at least as recent as the request. When
   the update itself is refused because the database holds something newer, transitivity of
   "newer" makes that database instance the witness.
   */
  lemma UpdateOne(f: Intake, lsa: Lsa, db: Database, now: nat, accepted: seq<LsaHeader>, seen: set<LsaHeader>)
    requires RequestsAccepted(f.endpoint.requests, accepted) && Covered(accepted, f.endpoint.requests, seen)
    requires WellKeyed(db) && HeaderSet(db) <= seen && OfferedHeaders(f.advertisements) <= seen
    ensures var r := TakeUpdate(f, lsa, db, now);
            && RequestsAccepted(r.endpoint.requests, accepted)
            && Covered(accepted, r.endpoint.requests, seen + OfferedHeaders(r.advertisements))
            && f.advertisements <= r.advertisements
  {
    var r := TakeUpdate(f, lsa, db, now);
    var more := seen + OfferedHeaders(r.advertisements);
    CoveredMonotone(accepted, f.endpoint.requests, seen, more);
    if lsa.Header().Some? {
      var u := lsa.Header().value;
      if r.endpoint.requests != f.endpoint.requests && u.key in f.endpoint.requests {
        var h := f.endpoint.requests[u.key];
        CompareAntisymmetric(u, h);
        assert !Newer(h, u);
        var held := Held(db, u.key);
        if held.None? || Compare(u, held.value) != Less {
          assert r.advertisements[|r.advertisements| - 1] == lsa;
          assert u in more;
        } else {
          CompareAntisymmetric(u, held.value);
          if Newer(h, held.value) {
            NewerTransitive(h, held.value, u);
          }
          assert held.value in HeaderSet(db);
        }
        assert AsRecent(h, more);
      }
    }
  }

  lemma OfferedMonotone(a: seq<Lsa>, b: seq<Lsa>)
    requires a <= b
    ensures OfferedHeaders(a) <= OfferedHeaders(b)
  {
  }

  lemma UpdateAll(f: Intake, lsas: seq<Lsa>, db: Database, now: nat, accepted: seq<LsaHeader>, seen: set<LsaHeader>)
    requires RequestsAccepted(f.endpoint.requests, accepted) && Covered(accepted, f.endpoint.requests, seen)
    requires WellKeyed(db) && HeaderSet(db) <= seen && OfferedHeaders(f.advertisements) <= seen
    ensures var r := TakeUpdates(f, lsas, db, now);
            && RequestsAccepted(r.endpoint.requests, accepted)
            && Covered(accepted, r.endpoint.requests, seen + OfferedHeaders(r.advertisements))
            && f.advertisements <= r.advertisements
    decreases |lsas|
  {
    if lsas == [] {
      CoveredMonotone(accepted, f.endpoint.requests, seen, seen + OfferedHeaders(f.advertisements));
    } else {
      UpdateOne(f, lsas[0], db, now, accepted, seen);
      var g := TakeUpdate(f, lsas[0], db, now);
      var more := seen + OfferedHeaders(g.advertisements);
      UpdateAll(g, lsas[1..], db, now, accepted, more);
      var r := TakeUpdates(f, lsas, db, now);
      OfferedMonotone(g.advertisements, r.advertisements);
      CoveredMonotone(accepted, r.endpoint.requests, more + OfferedHeaders(r.advertisements),
                      seen + OfferedHeaders(r.advertisements));
    }
  }

  // --------------------------------------------------------------------- the summary list

  lemma HeadersOfOrdered(keys: seq<Key>, db: Database)
    requires forall k :: k in keys ==> k in db
    requires WellKeyed(db)
    requires forall i, j :: 0 <= i < j < |keys| ==> keys[i] < keys[j]
    ensures UniqueKeys(HeadersOf(keys, db))
    ensures forall h :: h in HeadersOf(keys, db) ==> h.key in keys && h in HeaderSet(db)
  {
  }

  /** The summary sent to a peer names each key once, only keys of the database, within the limit. */
  lemma SummaryKeys(db: Database)
    requires WellKeyed(db)
    ensures UniqueKeys(Summary(db)) && |Summary(db)| <= OSPF_DATABASE_LIMIT
    ensures forall h :: h in Summary(db) ==> h.key in db && h in HeaderSet(db)
  {
    HeadersOfOrdered(SortedKeys(db.Keys), db);
  }

  lemma HeadersOfComplete(keys: seq<Key>, db: Database, k: Key)
    requires forall k :: k in keys ==> k in db
    requires k in keys && db[k].Header().Some?
    ensures db[k].Header().value in HeadersOf(keys, db)
  {
  }

  /** Below the limit the summary leaves nothing readable out. */
  lemma SummaryComplete(db: Database)
    requires |HeadersOf(SortedKeys(db.Keys), db)| <= OSPF_DATABASE_LIMIT
    ensures forall k :: k in db && db[k].Header().Some? ==> db[k].Header().value in Summary(db)
  {
    forall k | k in db && db[k].Header().Some? ensures db[k].Header().value in Summary(db) {
      HeadersOfComplete(SortedKeys(db.Keys), db, k);
    }
  }
}
