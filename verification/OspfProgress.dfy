/**
 Progress of the exchange once the network stops losing packets: every round of one timer and
 the deliveries it causes moves the master one page on, so both sides leave Exchange after as
 many rounds as there are pages left, from every state that any run, however lossy, can reach.
 */
module OspfProgress {
  import opened Prelude
  import opened OspfLsa
  import opened ExchangeSpec
  import opened OspfRequests
  import opened OspfNetwork

  ghost predicate BothUp(n: Net) {
    n.m.up && n.s.up
  }

  /** What no delivery and no timer changes, and the pages, which only grow. */
  ghost predicate SameExchange(n: Net, r: Net) {
    && BothUp(r) && r.base == n.base && r.slaveBase == n.slaveBase
    && r.m.e.summary == n.m.e.summary && r.m.e.mtu == n.m.e.mtu
    && r.s.e.summary == n.s.e.summary && r.s.e.mtu == n.s.e.mtu
    && n.m.pages <= r.m.pages && n.s.pages <= r.s.pages
  }

  /** The slave has cut the page that answers the master, and it is on its way. */
  ghost predicate Answered(n: Net) {
    n.s.pages == n.m.pages + 1 && SlavePage(n, n.s.pages) in n.toM
  }

  /** The master has nothing more to take from the slave. */
  ghost predicate CaughtUp(n: Net) {
    Finished(n.m) || n.m.pages == n.s.pages
  }

  // ----------------------------------------------------------------- deliveries to the slave

  lemma SlaveSideStays(n: Net)
    requires Invariant(n) && n.s.up && n.toS != []
    ensures var y := DeliverSide(n.s, n.toS[0], n.now).side;
            y.up && y.e.summary == n.s.e.summary && y.e.mtu == n.s.e.mtu
  {
    var d := n.toS[0];
    SlaveTail(n);
    if !d.DatabaseDescription? {
      DeliverPlain(n.s, d, n.now, SlaveSequence(n), n.m.e.summary, n.m.db);
    } else {
      SlaveSees(n);
      if n.s.pages > 0 && Duplicate(n.s.e, d) {
        Repeated(n.s, d, n.now, SlaveSequence(n), n.m.e.summary);
      } else if n.s.pages > 0 {
        SlaveCutsPages(n.s, d, n.now, SlaveSequence(n));
      } else {
        SlaveNegotiatesSide(n);
      }
    }
  }

  lemma SlaveStep(n: Net)
    requires Invariant(n) && BothUp(n) && n.toS != []
    ensures var r := SlaveTakes(n);
            && Invariant(r) && SameExchange(n, r) && r.m == n.m
            && r.toS == n.toS[1..] && n.toM <= r.toM
  {
    SlaveDelivers(n);
    SlaveSideStays(n);
  }

  lemma SlavePageStays(n: Net, r: Net, t: nat)
    requires SameExchange(n, r)
    ensures SlavePage(r, t) == SlavePage(n, t)
  {
  }

  lemma AnsweredStays(n: Net, r: Net)
    requires Answered(n) && SameExchange(n, r) && Lockstep(r) && r.m.pages == n.m.pages && n.toM <= r.toM
    ensures Answered(r)
  {
    SlavePageStays(n, r, n.s.pages);
  }

  /** A slave given the master's current page answers it, for the first time or again. */
  lemma SlaveAnswers(n: Net)
    requires Invariant(n) && n.s.up && n.toS != [] && n.toS[0] == MasterPage(n, n.m.pages) && !Finished(n.m)
    ensures var y := DeliverSide(n.s, n.toS[0], n.now);
            y.side.pages == n.m.pages + 1 && y.packets != [] && y.side.e.lastDd == Some(y.packets[0])
  {
    var d := n.toS[0];
    SlaveSees(n);
    if n.s.pages == n.m.pages {
      WrapStep(n.base + n.s.pages - 1);
      if n.s.pages > 0 {
        SlaveCutsPages(n.s, d, n.now, SlaveSequence(n));
      } else {
        SlaveNegotiatesSide(n);
      }
    } else {
      Repeated(n.s, d, n.now, SlaveSequence(n), n.m.e.summary);
    }
  }

  lemma SlaveTakesPage(n: Net)
    requires Invariant(n) && BothUp(n) && n.toS != [] && n.toS[0] == MasterPage(n, n.m.pages) && !Finished(n.m)
    ensures Answered(SlaveTakes(n))
  {
    SlaveAnswers(n);
    SlaveStep(n);
    var r, y := SlaveTakes(n), DeliverSide(n.s, n.toS[0], n.now);
    LastIsSlavePage(r);
    assert r.toM == n.toM + y.packets && y.packets[0] in r.toM;
  }

  // ------------------------------------------------------------------------------- traces

  ghost predicate Delivers(a: Net, b: Net, master: bool) {
    b == Step(a, Deliver(master))
  }

  ghost predicate DeliversAt(trace: seq<Net>, master: bool, i: nat)
    requires i + 1 < |trace|
  {
    Delivers(trace[i], trace[i + 1], master)
  }

  /** Consecutive deliveries to one side. */
  ghost predicate Deliveries(trace: seq<Net>, master: bool) {
    trace != [] && forall i {:trigger DeliversAt(trace, master, i)} :: 0 <= i < |trace| - 1 ==>
      DeliversAt(trace, master, i)
  }

  /** What holds with `k + 1` steps to go, and after one more step with `k`, holds at the end with none. */
  lemma {:induction false} TraceInduction(trace: seq<Net>, next: (Net, Net) -> bool, holds: (Net, nat) -> bool, i: nat)
    requires i < |trace| && holds(trace[0], |trace| - 1)
    requires forall j :: 0 <= j < |trace| - 1 ==> next(trace[j], trace[j + 1])
    requires forall a, b, k: nat :: next(a, b) && holds(a, k + 1) ==> holds(b, k)
    ensures holds(trace[i], |trace| - 1 - i)
    decreases i
  {
    if i > 0 {
      TraceInduction(trace, next, holds, i - 1);
      assert next(trace[i - 1], trace[i - 1 + 1]);
    }
  }

  /** The next `k` packets hold the master's current page, at `j`, unless the slave has answered it. */
  ghost predicate SlaveReady(n: Net, k: nat, j: nat) {
    && Invariant(n) && BothUp(n) && !Finished(n.m) && k <= |n.toS|
    && (Answered(n) || (j < k && n.toS[j] == MasterPage(n, n.m.pages)))
  }

  function Before(j: nat): nat {
    if j == 0 then 0 else j - 1
  }

  lemma SlaveReadyStep(n: Net, k: nat, j: nat)
    requires SlaveReady(n, k, j) && k > 0
    ensures var r := Step(n, Deliver(false));
            SlaveReady(r, k - 1, Before(j)) && SameExchange(n, r) && r.m == n.m
  {
    SlaveStep(n);
    if Answered(n) {
      AnsweredStays(n, SlaveTakes(n));
    } else if j == 0 {
      SlaveTakesPage(n);
    }
  }

  lemma SameExchangeTrans(a: Net, b: Net, c: Net)
    requires SameExchange(a, b) && SameExchange(b, c)
    ensures SameExchange(a, c)
  {
  }

  /** `m` is on the way from `n` with `k` deliveries to go. */
  ghost predicate SlaveOnTheWay(n: Net, m: Net, k: nat) {
    (exists j :: SlaveReady(m, k, j)) && SameExchange(n, m) && m.m == n.m
  }

  lemma SlaveOnTheWayStep(n: Net, a: Net, b: Net, k: nat)
    requires Delivers(a, b, false) && SlaveOnTheWay(n, a, k + 1)
    ensures SlaveOnTheWay(n, b, k)
  {
    var j :| SlaveReady(a, k + 1, j);
    SlaveReadyStep(a, k + 1, j);
    SameExchangeTrans(n, a, b);
  }

  lemma SlaveDrains(trace: seq<Net>, j: nat)
    requires Deliveries(trace, false) && SlaveReady(trace[0], |trace| - 1, j)
    ensures SlaveOnTheWay(trace[0], trace[|trace| - 1], 0)
  {
    var n := trace[0];
    var next := (a: Net, b: Net) => Delivers(a, b, false);
    var holds := (m: Net, k: nat) => SlaveOnTheWay(n, m, k);
    forall i | 0 <= i < |trace| - 1 ensures next(trace[i], trace[i + 1]) {
      assert DeliversAt(trace, false, i);
    }
    forall a, b, k: nat | next(a, b) && holds(a, k + 1) ensures holds(b, k) {
      SlaveOnTheWayStep(n, a, b, k);
    }
    TraceInduction(trace, next, holds, |trace| - 1);
  }

  // ---------------------------------------------------------------- deliveries to the master

  lemma MasterSideStays(n: Net)
    requires Invariant(n) && n.m.up && n.toM != []
    ensures var y := DeliverSide(n.m, n.toM[0], n.now).side;
            && y.up && y.e.summary == n.m.e.summary && y.e.mtu == n.m.e.mtu
            && (Finished(n.m) ==> Finished(y))
  {
    var d := n.toM[0];
    MasterTail(n);
    if !d.DatabaseDescription? {
      DeliverPlain(n.m, d, n.now, MasterSequence(n), n.s.e.summary, n.s.db);
    } else {
      MasterSees(n);
      if if n.m.e.state == ExStart then !Negotiates(n.m.e, d) else Duplicate(n.m.e, d) {
        Repeated(n.m, d, n.now, MasterSequence(n), n.s.e.summary);
      } else if CutsPage(n.m.e, d) {
        MasterCuts(n.m, d, n.now);
      } else {
        MasterFinishes(n.m, d, n.now);
      }
    }
  }

  lemma MasterStep(n: Net)
    requires Invariant(n) && BothUp(n) && n.toM != []
    ensures var r := MasterTakes(n);
            && Invariant(r) && SameExchange(n, r) && r.s == n.s
            && r.toM == n.toM[1..] && (CaughtUp(n) ==> CaughtUp(r))
            && (r.m.pages == n.m.pages || CaughtUp(r))
  {
    MasterDelivers(n);
    MasterSideStays(n);
  }

  lemma MasterTakesPage(n: Net)
    requires Invariant(n) && BothUp(n) && n.toM != [] && n.toM[0] == SlavePage(n, n.s.pages)
    requires n.s.pages == n.m.pages + 1 && !Finished(n.m)
    ensures CaughtUp(MasterTakes(n))
  {
    NextPage(n.m, n.toM[0], n.s.e.summary);
    if !CutsPage(n.m.e, n.toM[0]) {
      MasterFinishes(n.m, n.toM[0], n.now);
    }
  }

  /** The next `k` packets hold the slave's current page, at `j`, unless the master has caught up. */
  ghost predicate MasterReady(n: Net, k: nat, j: nat) {
    && Invariant(n) && BothUp(n) && k <= |n.toM|
    && (CaughtUp(n) || (j < k && n.toM[j] == SlavePage(n, n.s.pages)))
  }

  lemma MasterReadyStep(n: Net, k: nat, j: nat)
    requires MasterReady(n, k, j) && k > 0
    ensures var r := Step(n, Deliver(true));
            MasterReady(r, k - 1, Before(j)) && SameExchange(n, r) && r.s == n.s
  {
    MasterStep(n);
    SlavePageStays(n, MasterTakes(n), n.s.pages);
    if !CaughtUp(n) && j == 0 {
      MasterTakesPage(n);
    }
  }

  ghost predicate MasterOnTheWay(n: Net, m: Net, k: nat) {
    (exists j :: MasterReady(m, k, j)) && SameExchange(n, m) && m.s == n.s
  }

  lemma MasterOnTheWayStep(n: Net, a: Net, b: Net, k: nat)
    requires Delivers(a, b, true) && MasterOnTheWay(n, a, k + 1)
    ensures MasterOnTheWay(n, b, k)
  {
    var j :| MasterReady(a, k + 1, j);
    MasterReadyStep(a, k + 1, j);
    SameExchangeTrans(n, a, b);
  }

  lemma MasterDrains(trace: seq<Net>, j: nat)
    requires Deliveries(trace, true) && MasterReady(trace[0], |trace| - 1, j)
    ensures MasterOnTheWay(trace[0], trace[|trace| - 1], 0)
  {
    var n := trace[0];
    var next := (a: Net, b: Net) => Delivers(a, b, true);
    var holds := (m: Net, k: nat) => MasterOnTheWay(n, m, k);
    forall i | 0 <= i < |trace| - 1 ensures next(trace[i], trace[i + 1]) {
      assert DeliversAt(trace, true, i);
    }
    forall a, b, k: nat | next(a, b) && holds(a, k + 1) ensures holds(b, k) {
      MasterOnTheWayStep(n, a, b, k);
    }
    TraceInduction(trace, next, holds, |trace| - 1);
  }

  // --------------------------------------------------------------------------------- rounds

  /** A master that has not finished repeats its current page when its timer is due. */
  lemma MasterResends(n: Net)
    requires Invariant(n) && BothUp(n) && !Finished(n.m) && n.m.e.ddDue <= n.now
    ensures var r := Step(n, Fire(true));
            && Invariant(r) && SameExchange(n, r) && r.m.pages == n.m.pages && r.s == n.s && !Finished(r.m)
            && |n.toS| < |r.toS| && r.toS[|n.toS|] == MasterPage(r, r.m.pages)
  {
    FireKeeps(n, true);
    FirePlain(n.m, n.now, MasterSequence(n), n.s.e.summary, n.s.db);
    assert FireSide(n.m, n.now).packets[0] == n.m.e.lastDd.value;
  }

  /** The master's timer is waited for and fires. */
  ghost predicate Fires(n: Net, sent: Net) {
    sent == Step(Step(n, Pass(Max(n.now, n.m.e.ddDue))), Fire(true))
  }

  /** A round without loss: the timer fires, then all that is in flight reaches the slave, then the master. */
  ghost predicate Round(n: Net, toSlave: seq<Net>, toMaster: seq<Net>) {
    && Deliveries(toSlave, false) && Fires(n, toSlave[0]) && |toSlave| == |toSlave[0].toS| + 1
    && Deliveries(toMaster, true) && toMaster[0] == toSlave[|toSlave| - 1] && |toMaster| == |toMaster[0].toM| + 1
  }

  lemma ResendReadies(due: Net, sent: Net)
    requires Invariant(due) && BothUp(due) && !Finished(due.m) && due.m.e.ddDue <= due.now
             && sent == Step(due, Fire(true))
    ensures SameExchange(due, sent) && sent.m.pages == due.m.pages && SlaveReady(sent, |sent.toS|, |due.toS|)
  {
    MasterResends(due);
  }

  lemma MasterFiresInTime(n: Net, sent: Net)
    requires Invariant(n) && BothUp(n) && !Finished(n.m) && Fires(n, sent)
    ensures SameExchange(n, sent) && sent.m.pages == n.m.pages && SlaveReady(sent, |sent.toS|, |n.toS|)
  {
    var due := n.(now := Max(n.now, n.m.e.ddDue));
    assert Step(n, Pass(due.now)) == due;
    PassKeeps(n, due.now);
    ResendReadies(due, sent);
  }

  /** With the slave's answer in flight, the master is ready to catch up. */
  lemma AnswerArrives(sent: Net, answered: Net) returns (j: nat)
    requires SlaveOnTheWay(sent, answered, 0)
    ensures Invariant(answered) && SameExchange(sent, answered) && Answered(answered) && answered.m == sent.m
    ensures MasterReady(answered, |answered.toM|, j)
  {
    j :| j < |answered.toM| && answered.toM[j] == SlavePage(answered, answered.s.pages);
  }

  lemma CatchesUp(answered: Net, r: Net)
    requires Answered(answered) && MasterOnTheWay(answered, r, 0)
    ensures Invariant(r) && SameExchange(answered, r) && CaughtUp(r)
    ensures Finished(r.m) || r.m.pages == answered.m.pages + 1
  {
  }

  /** A round without loss takes the master to the next page, or out of Exchange. */
  lemma RoundAdvances(n: Net, toSlave: seq<Net>, toMaster: seq<Net>)
    requires Invariant(n) && BothUp(n) && !Finished(n.m) && Round(n, toSlave, toMaster)
    ensures var r := toMaster[|toMaster| - 1];
            && Invariant(r) && SameExchange(n, r) && CaughtUp(r)
            && (Finished(r.m) || r.m.pages == n.m.pages + 1)
  {
    var sent, answered, r := toSlave[0], toMaster[0], toMaster[|toMaster| - 1];
    MasterFiresInTime(n, sent);
    SlaveDrains(toSlave, |n.toS|);
    var j := AnswerArrives(sent, answered);
    MasterDrains(toMaster, j);
    CatchesUp(answered, r);
    SameExchangeTrans(n, sent, answered);
    SameExchangeTrans(n, answered, r);
  }

  /** One round, unless the master has already finished. */
  ghost predicate NextRound(n: Net, r: Net) {
    if Finished(n.m) then r == n
    else exists toSlave, toMaster :: Round(n, toSlave, toMaster) && r == toMaster[|toMaster| - 1]
  }

  ghost predicate NextRoundAt(trace: seq<Net>, i: nat)
    requires i + 1 < |trace|
  {
    NextRound(trace[i], trace[i + 1])
  }

  ghost predicate Rounds(trace: seq<Net>) {
    trace != [] && forall i {:trigger NextRoundAt(trace, i)} :: 0 <= i < |trace| - 1 ==> NextRoundAt(trace, i)
  }

  lemma {:induction false} PageEndMonotone(length: nat, size: nat, t: nat, u: nat)
    requires t <= u
    ensures PageEnd(length, size, t) <= PageEnd(length, size, u)
    decreases u
  {
    if t < u {
      PageEndMonotone(length, size, t, u - 1);
      PageEndGrows(length, size, u - 1);
    }
  }

  /** Once nothing is left to describe after page `t`, nothing is left after any later page. */
  lemma CompleteStays(n: Net, t: nat, u: nat)
    requires Complete(n, t) && t <= u
    ensures Complete(n, u)
  {
    PageEndMonotone(|n.m.e.summary|, ChunkSize(n.m.e.mtu), t - 1, u - 1);
    PageEndMonotone(|n.s.e.summary|, ChunkSize(n.s.e.mtu), t, u);
  }

  lemma CaughtUpInTime(n: Net, t: nat)
    requires Invariant(n) && CaughtUp(n) && Complete(n, t) && t <= n.m.pages
    ensures Finished(n.m)
  {
    CompleteStays(n, t, n.m.pages);
  }

  /** Finished, or caught up with at most `k` pages to go before page `t`, the last. */
  ghost predicate PagesToGo(n: Net, t: nat, k: nat) {
    && Invariant(n) && BothUp(n)
    && (Finished(n.m) || (CaughtUp(n) && Complete(n, t) && t <= n.m.pages + k))
  }

  lemma SameComplete(n: Net, r: Net, t: nat)
    requires Complete(n, t) && SameExchange(n, r)
    ensures Complete(r, t)
  {
  }

  lemma RoundUsesAPage(n: Net, r: Net, t: nat, k: nat)
    requires NextRound(n, r) && Invariant(n) && BothUp(n)
    requires Finished(n.m) || (Complete(n, t) && t <= n.m.pages + k + 1)
    ensures PagesToGo(r, t, k)
  {
    if !Finished(n.m) {
      var toSlave, toMaster :| Round(n, toSlave, toMaster) && r == toMaster[|toMaster| - 1];
      RoundAdvances(n, toSlave, toMaster);
      SameComplete(n, r, t);
    }
  }

  lemma NoPagesToGo(n: Net, t: nat)
    requires PagesToGo(n, t, 0)
    ensures Finished(n.m) && Finished(n.s)
  {
    if !Finished(n.m) {
      CaughtUpInTime(n, t);
    }
    InvariantEndsClose(n);
  }

  lemma CaughtUpFinishes(trace: seq<Net>, t: nat)
    requires Rounds(trace) && PagesToGo(trace[0], t, |trace| - 1)
    ensures Finished(trace[|trace| - 1].m) && Finished(trace[|trace| - 1].s)
  {
    var next := (a: Net, b: Net) => NextRound(a, b);
    var holds := (n: Net, k: nat) => PagesToGo(n, t, k);
    forall i | 0 <= i < |trace| - 1 ensures next(trace[i], trace[i + 1]) {
      assert NextRoundAt(trace, i);
    }
    forall a, b, k: nat | next(a, b) && holds(a, k + 1) ensures holds(b, k) {
      RoundUsesAPage(a, b, t, k);
    }
    TraceInduction(trace, next, holds, |trace| - 1);
    NoPagesToGo(trace[|trace| - 1], t);
  }

  lemma RoundsTail(trace: seq<Net>)
    requires Rounds(trace) && |trace| > 1
    ensures NextRound(trace[0], trace[1]) && Rounds(trace[1..])
  {
    assert NextRoundAt(trace, 0);
    forall i: nat {:trigger NextRoundAt(trace[1..], i)} | i < |trace[1..]| - 1 ensures NextRoundAt(trace[1..], i) {
      assert NextRoundAt(trace, i + 1);
    }
  }

  /**
   From any state with both sides up, as many loss-free rounds as there are pages left, and at
   least one, take both sides to Loading or Full.
   */
  lemma RoundsFinish(trace: seq<Net>, t: nat)
    requires Rounds(trace) && Invariant(trace[0]) && BothUp(trace[0]) && Complete(trace[0], t)
    requires 2 <= |trace| && t <= trace[0].m.pages + |trace| - 1
    ensures Finished(trace[|trace| - 1].m) && Finished(trace[|trace| - 1].s)
  {
    RoundsTail(trace);
    RoundUsesAPage(trace[0], trace[1], t, |trace| - 2);
    CaughtUpFinishes(trace[1..], t);
  }

  lemma {:induction false} PageEndReaches(length: nat, size: nat, t: nat)
    requires size >= 1
    ensures PageEnd(length, size, t) >= Min(length, t)
    decreases t
  {
    if t > 0 {
      PageEndReaches(length, size, t - 1);
    }
  }

  /** One page per header is always enough. */
  lemma CompleteInTime(n: Net)
    ensures Complete(n, Max(|n.m.e.summary| + 1, Max(|n.s.e.summary|, 2)))
  {
    var t := Max(|n.m.e.summary| + 1, Max(|n.s.e.summary|, 2));
    PageEndReaches(|n.m.e.summary|, ChunkSize(n.m.e.mtu), t - 1);
    PageEndReaches(|n.s.e.summary|, ChunkSize(n.s.e.mtu), t);
  }

  // ------------------------------------------------------------------------ rounds are runs

  ghost predicate LossFree(actions: seq<Action>) {
    forall a :: a in actions ==> a.Pass? || a.Fire? || a.Deliver?
  }

  lemma {:induction false} RunAppend(n: Net, a: seq<Action>, b: seq<Action>)
    ensures Run(n, a + b) == Run(Run(n, a), b)
    decreases |a|
  {
    if a == [] {
      assert a + b == b;
    } else {
      assert (a + b)[0] == a[0] && (a + b)[1..] == a[1..] + b;
      RunAppend(Step(n, a[0]), a[1..], b);
    }
  }

  lemma RunLast(n: Net, a: seq<Action>, last: Action)
    ensures Run(n, a + [last]) == Step(Run(n, a), last)
  {
    RunAppend(n, a, [last]);
    RunOne(Run(n, a), last);
  }

  lemma RunOne(n: Net, a: Action)
    ensures Run(n, [a]) == Step(n, a)
  {
    assert [a][1..] == [];
  }

  /** `k` deliveries from `n`, as states and as actions. */
  lemma {:induction false} DeliveriesExist(n: Net, master: bool, k: nat) returns (trace: seq<Net>, actions: seq<Action>)
    ensures Deliveries(trace, master) && trace[0] == n && |trace| == k + 1
    ensures LossFree(actions) && Run(n, actions) == trace[k]
    decreases k
  {
    if k == 0 {
      trace, actions := [n], [];
    } else {
      var front, before := DeliveriesExist(n, master, k - 1);
      var last := Step(front[k - 1], Deliver(master));
      trace, actions := front + [last], before + [Deliver(master)];
      RunLast(n, before, Deliver(master));
      forall i: nat {:trigger DeliversAt(trace, master, i)} | i < k ensures DeliversAt(trace, master, i) {
        assert i < k - 1 ==> DeliversAt(front, master, i);
      }
    }
  }

  lemma RoundExists(n: Net) returns (r: Net, actions: seq<Action>)
    ensures NextRound(n, r) && LossFree(actions) && Run(n, actions) == r
  {
    if Finished(n.m) {
      r, actions := n, [];
    } else {
      var pass := Pass(Max(n.now, n.m.e.ddDue));
      var sent := Step(Step(n, pass), Fire(true));
      RunOne(n, pass);
      RunLast(n, [pass], Fire(true));
      var toSlave, first := DeliveriesExist(sent, false, |sent.toS|);
      var answered := toSlave[|sent.toS|];
      var toMaster, second := DeliveriesExist(answered, true, |answered.toM|);
      RunAppend(n, [pass] + [Fire(true)], first);
      RunAppend(n, [pass] + [Fire(true)] + first, second);
      r, actions := toMaster[|answered.toM|], [pass] + [Fire(true)] + first + second;
      assert Round(n, toSlave, toMaster);
    }
  }

  lemma {:induction false} RoundsExist(n: Net, k: nat) returns (trace: seq<Net>, actions: seq<Action>)
    ensures Rounds(trace) && trace[0] == n && |trace| == k + 1
    ensures LossFree(actions) && Run(n, actions) == trace[k]
    decreases k
  {
    if k == 0 {
      trace, actions := [n], [];
    } else {
      var front, before := RoundsExist(n, k - 1);
      var last, more := RoundExists(front[k - 1]);
      trace, actions := front + [last], before + more;
      RunAppend(n, before, more);
      forall i: nat {:trigger NextRoundAt(trace, i)} | i < k ensures NextRoundAt(trace, i) {
        assert i < k - 1 ==> NextRoundAt(front, i);
      }
    }
  }

  lemma FinishesFrom(n: Net) returns (more: seq<Action>)
    requires Invariant(n) && BothUp(n)
    ensures LossFree(more) && Finished(Run(n, more).m) && Finished(Run(n, more).s)
  {
    CompleteInTime(n);
    var t := Max(|n.m.e.summary| + 1, Max(|n.s.e.summary|, 2));
    var trace, actions := RoundsExist(n, t);
    RoundsFinish(trace, t);
    more := actions;
  }

  /**
   The exchange is never stuck: whatever any run has lost, if both sides have started there is
   a continuation that loses nothing more after which both are in Loading or Full.
   */
  lemma NeverStuck(n: Net, actions: seq<Action>)
    requires Initial(n) && BothUp(Run(n, actions))
    ensures exists more :: LossFree(more) && var r := Run(n, actions + more); Finished(r.m) && Finished(r.s)
  {
    Reachable(n, actions);
    var more := FinishesFrom(Run(n, actions));
    RunAppend(n, actions, more);
  }
}
