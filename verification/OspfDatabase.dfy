/**
 What a Full side holds now, and not only what it has seen: its database itself carries, for
 every header of its peer's summary, an instance not older, provided that the updates it
 accepted were installed and that entries were only ever replaced by strictly newer instances.
 */
module OspfDatabase {
  import opened Prelude
  import opened OspfLsa
  import opened ExchangeSpec
  import opened OspfRequests
  import opened OspfNetwork

  /** The database has this very instance or a strictly newer one. */
  ghost predicate Holds(db: Database, h: LsaHeader) {
    var held := Held(db, h.key);
    held.Some? && (held.value == h || Newer(held.value, h))
  }

  /** Readable entries stay, or give way to strictly newer ones. */
  ghost predicate Upgrades(db: Database, more: Database) {
    forall k {:trigger Held(db, k)} :: Held(db, k).Some? ==>
      Held(more, k).Some? && (Held(more, k) == Held(db, k) || Newer(Held(more, k).value, Held(db, k).value))
  }

  lemma HoldsStill(db: Database, more: Database, h: LsaHeader)
    requires Holds(db, h) && Upgrades(db, more)
    ensures Holds(more, h)
  {
    var before, after := Held(db, h.key).value, Held(more, h.key).value;
    if before != h && after != before {
      NewerTransitive(after, before, h);
    }
  }

  lemma HoldsItsHeaders(db: Database, h: LsaHeader)
    requires WellKeyed(db) && h in HeaderSet(db)
    ensures Holds(db, h)
  {
  }

  /** A held instance is not older than anything that a seen instance is not older than. */
  lemma HeldIsNotOlder(db: Database, x: LsaHeader, h: LsaHeader)
    requires Holds(db, x) && x.key == h.key && !Newer(h, x)
    ensures Held(db, h.key).Some? && !Newer(h, Held(db, h.key).value)
  {
    var held := Held(db, h.key).value;
    if Newer(h, held) && held != x {
      NewerTransitive(h, held, x);
    }
  }

  /** Replacing an entry by what counts as the same instance is not enough: ages may drift apart. */
  lemma EqualReplacementsDrift()
    ensures exists h: LsaHeader, x: LsaHeader, y: LsaHeader ::
              !Newer(h, x) && Compare(y, x) == Equal && Newer(h, y)
  {
    var h, x, y := LsaHeader(0, 0, 0, 0), LsaHeader(0, 0, 0, 800), LsaHeader(0, 0, 0, 1600);
    assert !Newer(h, x) && Compare(y, x) == Equal && Newer(h, y);
  }

  // ---------------------------------------------------------------------------- whole runs

  function SideOf(n: Net, master: bool): Side {
    if master then n.m else n.s
  }

  /** Headers of the updates that one action makes this side accept. */
  ghost function StepOffers(n: Net, a: Action, master: bool): set<LsaHeader> {
    var x, channel := SideOf(n, master), if master then n.toM else n.toS;
    if a == Deliver(master) && channel != [] && x.up && x.e.offset <= |x.e.summary|
    then OfferedHeaders(Receive(x.e, channel[0], x.db, n.now).advertisements) else {}
  }

  /** Headers of all updates that this side accepts along the run. */
  ghost function Offers(n: Net, actions: seq<Action>, master: bool): set<LsaHeader>
    decreases |actions|
  {
    if actions == [] then {} else StepOffers(n, actions[0], master) + Offers(Step(n, actions[0]), actions[1..], master)
  }

  /** The side's database is only ever upgraded. */
  ghost predicate OnlyUpgrades(n: Net, actions: seq<Action>, master: bool)
    decreases |actions|
  {
    actions == [] ||
    (&& (actions[0].ChangeDatabase? && actions[0].master == master ==> Upgrades(SideOf(n, master).db, actions[0].db))
     && OnlyUpgrades(Step(n, actions[0]), actions[1..], master))
  }

  /** Everything seen is held, except what only an update in `offered` has shown. */
  ghost predicate SeenIsHeld(x: Side, offered: set<LsaHeader>) {
    WellKeyed(x.db) && forall h :: h in x.seen ==> h in offered || Holds(x.db, h)
  }

  lemma DeliveryShows(x: Side, body: Body, now: nat, offered: set<LsaHeader>)
    requires SeenIsHeld(x, offered) && x.up && x.e.offset <= |x.e.summary|
    ensures SeenIsHeld(DeliverSide(x, body, now).side,
                       offered + OfferedHeaders(Receive(x.e, body, x.db, now).advertisements))
  {
    var added := OfferedHeaders(Receive(x.e, body, x.db, now).advertisements);
    forall h | h in x.seen + HeaderSet(x.db) + added ensures h in offered + added || Holds(x.db, h) {
      if h in HeaderSet(x.db) {
        HoldsItsHeaders(x.db, h);
      }
    }
  }

  lemma ChangeShows(x: Side, db: Database, offered: set<LsaHeader>)
    requires SeenIsHeld(x, offered) && Upgrades(x.db, db)
    ensures SeenIsHeld(ChangeSide(x, db), offered)
  {
    forall h | h in x.seen && h !in offered ensures Holds(ChangeSide(x, db).db, h) {
      HoldsStill(x.db, db, h);
    }
  }

  lemma StepShows(n: Net, a: Action, master: bool, offered: set<LsaHeader>)
    requires SeenIsHeld(SideOf(n, master), offered)
    requires a.ChangeDatabase? && a.master == master ==> Upgrades(SideOf(n, master).db, a.db)
    ensures SeenIsHeld(SideOf(Step(n, a), master), offered + StepOffers(n, a, master))
  {
    var x, channel := SideOf(n, master), if master then n.toM else n.toS;
    match a {
      case Deliver(m) =>
        if m == master && channel != [] && x.up && x.e.offset <= |x.e.summary| {
          DeliveryShows(x, channel[0], n.now, offered);
        }
      case ChangeDatabase(m, db) =>
        if m == master {
          ChangeShows(x, db, offered);
        }
      case _ =>
    }
  }

  lemma {:induction false} RunShows(n: Net, actions: seq<Action>, master: bool, offered: set<LsaHeader>)
    requires SeenIsHeld(SideOf(n, master), offered) && OnlyUpgrades(n, actions, master)
    ensures SeenIsHeld(SideOf(Run(n, actions), master), offered + Offers(n, actions, master))
    decreases |actions|
  {
    if actions == [] {
      assert offered + {} == offered;
    } else {
      StepShows(n, actions[0], master, offered);
      RunShows(Step(n, actions[0]), actions[1..], master, offered + StepOffers(n, actions[0], master));
      assert offered + StepOffers(n, actions[0], master) + Offers(Step(n, actions[0]), actions[1..], master)
          == offered + Offers(n, actions, master);
    }
  }

  lemma SeenAtFull(n: Net, actions: seq<Action>, master: bool, h: LsaHeader)
    requires Initial(n)
    requires var r := Run(n, actions); SideOf(r, master).e.state == Full && h in SideOf(r, !master).e.summary
    ensures AsRecent(h, SideOf(Run(n, actions), master).seen)
  {
    FullIsSynchronised(n, actions);
  }

  /**
   A Full side whose accepted updates have been installed has in its database, for every header
   of its peer's summary, an instance not older than that header.
   */
  lemma FullHoldsSummary(n: Net, actions: seq<Action>, master: bool, h: LsaHeader)
    requires Initial(n) && OnlyUpgrades(n, actions, master)
    requires var r := Run(n, actions);
             && SideOf(r, master).e.state == Full && h in SideOf(r, !master).e.summary
             && forall x :: x in Offers(n, actions, master) ==> Holds(SideOf(r, master).db, x)
    ensures var db := SideOf(Run(n, actions), master).db;
            Held(db, h.key).Some? && !Newer(h, Held(db, h.key).value)
  {
    var side := SideOf(Run(n, actions), master);
    SeenAtFull(n, actions, master, h);
    RunShows(n, actions, master, {});
    var x :| x in side.seen && x.key == h.key && !Newer(h, x);
    HeldIsNotOlder(side.db, x, h);
  }
}
