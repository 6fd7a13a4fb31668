/**
 A full-duplex virtual cable on the shared event queue: frames are admitted by one of two
 transmitters, wait in the queue until their arrival, and are judged when they are popped.
 */
module CableSpec {
  import opened Prelude
  import Link = LinkSpec
  import opened EventQueueSpec

  type Bytes = seq<Byte>

  /** Every other kind of event in the simulation is a timer here. */
  datatype Event =
    | FrameReceived(toB: bool, generation: nat, lost: bool, frame: Bytes)
    | Timer(id: nat)

  datatype Cable = Cable(
    queue: Queue<Event>,
    aToB: Link.Runtime,
    bToA: Link.Runtime,
    up: bool,
    active: bool,
    generation: nat)

  datatype Sending = LinkDown | CheckFailed | QueueFull | ScheduleFailed | Sent

  datatype Transmitted = Transmitted(cable: Cable, sending: Sending)

  datatype Verdict = LinkChanged | SimulatedLoss | Rejected | Delivered | NotAFrame

  function Way(c: Cable, toB: bool): Link.Runtime {
    if toB then c.aToB else c.bToA
  }

  function WithWay(c: Cable, toB: bool, r: Link.Runtime): Cable {
    if toB then c.(aToB := r) else c.(bToA := r)
  }

  /** `check` is the sending device's own verdict on the frame. */
  function Transmit(c: Cable, config: Link.LinkConfig, toB: bool, frame: Bytes, check: bool, jitter: nat,
                    loss: nat): Transmitted
    requires Link.ValidConfig(config)
  {
    if !c.up then Transmitted(c, LinkDown)
    else if !check then Transmitted(c, CheckFailed)
    else
      var a := Link.Admit(Way(c, toB), config, c.queue.now, |frame|, jitter, loss);
      var reserved := WithWay(c, toB, a.runtime);
      match a.admission
      case Full => Transmitted(reserved, QueueFull)
      case Overflowed => Transmitted(reserved, ScheduleFailed)
      case Scheduled(arrival, lost) =>
        var s := ScheduleAt(c.queue, arrival, FrameReceived(toB, c.generation, lost, frame));
        Transmitted(reserved.(queue := s.queue), if s.outcome.Done? then Sent else ScheduleFailed)
  }

  /** Carrier follows the link and both interfaces; every change starts a new generation. */
  function Refresh(c: Cable, up: bool, enabledA: bool, enabledB: bool): Cable {
    var active := up && enabledA && enabledB;
    if active == c.active || c.generation + 1 > U64_MAX then c.(up := up)
    else Cable(c.queue, Link.Reset(c.aToB), Link.Reset(c.bToA), up, active, c.generation + 1)
  }

  /** The fate of a popped event; `check` is the receiving device's verdict. */
  function Judge(c: Cable, e: Event, check: bool): Verdict {
    if e.Timer? then NotAFrame
    else if !c.active || e.generation != c.generation then LinkChanged
    else if e.lost then SimulatedLoss
    else if !check then Rejected
    else Delivered
  }

  // ------------------------------------------------------------------------- whole runs

  datatype Action =
    | Send(config: Link.LinkConfig, toB: bool, frame: Bytes, check: bool, jitter: nat, loss: nat)
    | Carrier(up: bool, enabledA: bool, enabledB: bool)
    | Next(check: bool)
    | Schedule(time: nat, id: nat)
    | Idle(time: nat)

  datatype Fate = Fate(entry: Scheduled<Event>, verdict: Verdict)

  /** The cable with every frame ever put on it and every event ever popped. */
  datatype Trace = Trace(cable: Cable, sent: set<Scheduled<Event>>, fates: seq<Fate>)

  ghost function Step(t: Trace, a: Action): Trace
    requires Valid(t.cable.queue)
  {
    match a
    case Send(config, toB, frame, check, jitter, loss) =>
      if !Link.ValidConfig(config) then t else Put(t, Transmit(t.cable, config, toB, frame, check, jitter, loss).cable)
    case Carrier(up, enabledA, enabledB) => t.(cable := Refresh(t.cable, up, enabledA, enabledB))
    case Next(check) => if t.cable.queue.pending == {} then t else Took(t, check)
    case Schedule(time, id) =>
      if time > U64_MAX then t else t.(cable := t.cable.(queue := ScheduleAt(t.cable.queue, time, Timer(id)).queue))
    case Idle(time) =>
      if time > U64_MAX then t else t.(cable := t.cable.(queue := AdvanceTo(t.cable.queue, time).queue))
  }

  ghost function Put(t: Trace, c: Cable): Trace {
    t.(cable := c, sent := t.sent + (c.queue.pending - t.cable.queue.pending))
  }

  ghost function Took(t: Trace, check: bool): Trace
    requires Valid(t.cable.queue) && t.cable.queue.pending != {}
  {
    var e := Head(t.cable.queue);
    t.(cable := t.cable.(queue := Pop(t.cable.queue)), fates := t.fates + [Fate(e, Judge(t.cable, e.event, check))])
  }

  ghost predicate Frame(x: Scheduled<Event>, toB: bool) {
    x.event.FrameReceived? && x.event.toB == toB
  }

  /** A pending frame that will not be dropped for a carrier change. */
  ghost predicate Live(c: Cable, x: Scheduled<Event>, toB: bool) {
    x in c.queue.pending && Frame(x, toB) && x.event.generation == c.generation
  }

  ghost predicate InStep(c: Cable, x: Scheduled<Event>, y: Scheduled<Event>, toB: bool) {
    Live(c, x, toB) && Live(c, y, toB) && x.sequence < y.sequence ==> x.time <= y.time
  }

  /** Pending frames of one direction and generation arrive in insertion order, none after `lastArrival`. */
  ghost predicate Fifo(c: Cable, toB: bool) {
    && Way(c, toB).lastArrival <= U64_MAX
    && (forall x :: Live(c, x, toB) ==> x.time <= Way(c, toB).lastArrival)
    && (forall x, y :: x in c.queue.pending && y in c.queue.pending ==> InStep(c, x, y, toB))
  }

  ghost predicate Passed(f: Fate, toB: bool) {
    f.verdict.Delivered? && Frame(f.entry, toB)
  }

  /** What left before was sent before. */
  ghost predicate Behind(c: Cable, fates: seq<Fate>, toB: bool) {
    forall i, x :: 0 <= i < |fates| && Passed(fates[i], toB) && Live(c, x, toB) ==> fates[i].entry.sequence < x.sequence
  }

  ghost predicate Delivery(fates: seq<Fate>, toB: bool) {
    forall i, j :: 0 <= i < j < |fates| && Passed(fates[i], toB) && Passed(fates[j], toB)
                   ==> fates[i].entry.sequence < fates[j].entry.sequence
  }

  ghost predicate Direction(t: Trace, toB: bool) {
    Fifo(t.cable, toB) && Behind(t.cable, t.fates, toB) && Delivery(t.fates, toB)
  }

  /** Why a frame that has left the queue was not delivered. */
  ghost predicate Explained(c: Cable, f: Fate) {
    match f.verdict
    case NotAFrame => f.entry.event.Timer?
    case LinkChanged =>
      f.entry.event.FrameReceived?
      && (f.entry.event.generation < c.generation || (f.entry.event.generation == c.generation && !c.active))
    case SimulatedLoss => f.entry.event.FrameReceived? && f.entry.event.lost
    case _ => f.entry.event.FrameReceived? && !f.entry.event.lost
  }

  ghost function Entries(fates: seq<Fate>): set<Scheduled<Event>> {
    set f | f in fates :: f.entry
  }

  ghost function Frames(s: set<Scheduled<Event>>): set<Scheduled<Event>> {
    set x | x in s && x.event.FrameReceived?
  }

  /** Every sent frame is still pending or has met its fate. */
  ghost predicate Accounted(t: Trace) {
    && t.sent == Frames(t.cable.queue.pending) + Frames(Entries(t.fates))
    && (forall x :: x in t.cable.queue.pending && x.event.FrameReceived? ==> x.event.generation <= t.cable.generation)
    && (forall i :: 0 <= i < |t.fates| ==>
          t.fates[i].entry.sequence < t.cable.queue.nextSequence && t.fates[i].entry.time <= t.cable.queue.now
          && Explained(t.cable, t.fates[i]))
    && (forall i, x :: 0 <= i < |t.fates| && x in t.cable.queue.pending ==> Before(t.fates[i].entry, x))
    && (forall i, j :: 0 <= i < j < |t.fates| ==> Before(t.fates[i].entry, t.fates[j].entry))
  }

  ghost predicate Invariant(t: Trace) {
    Valid(t.cable.queue) && Accounted(t) && Direction(t, true) && Direction(t, false)
  }

  // ---------------------------------------------------------------- taking in one event

  /** `after` is `before` with `e` queued and, if `e` is a frame, the arrival of its direction moved up to it. */
  ghost predicate Inserted(before: Cable, after: Cable, e: Scheduled<Event>) {
    && after.active == before.active && after.generation == before.generation
    && after.queue == Queue(before.queue.now, before.queue.nextSequence + 1, before.queue.pending + {e})
    && e.sequence == before.queue.nextSequence && before.queue.now <= e.time <= U64_MAX
    && after.queue.nextSequence <= U64_MAX
    && (e.event.FrameReceived? ==> e.event.generation == before.generation)
    && ClampedTo(before, after, e, true) && ClampedTo(before, after, e, false)
  }

  ghost predicate ClampedTo(before: Cable, after: Cable, e: Scheduled<Event>, toB: bool) {
    && Way(before, toB).lastArrival <= Way(after, toB).lastArrival <= U64_MAX
    && (Frame(e, toB) ==> e.time == Way(after, toB).lastArrival)
  }

  lemma InsertedStaysValid(before: Cable, after: Cable, e: Scheduled<Event>)
    requires Valid(before.queue) && Inserted(before, after, e)
    ensures Valid(after.queue)
  {
  }

  lemma InsertedStaysFifo(before: Cable, after: Cable, e: Scheduled<Event>, toB: bool)
    requires Valid(before.queue) && Inserted(before, after, e) && Fifo(before, toB)
    ensures Fifo(after, toB)
  {
  }

  lemma InsertedStaysBehind(t: Trace, after: Cable, e: Scheduled<Event>, toB: bool)
    requires Accounted(t) && Inserted(t.cable, after, e) && Behind(t.cable, t.fates, toB)
    ensures Behind(after, t.fates, toB)
  {
  }

  lemma InsertedStaysAccounted(t: Trace, after: Cable, e: Scheduled<Event>)
    requires Accounted(t) && Inserted(t.cable, after, e)
    ensures Accounted(t.(cable := after, sent := t.sent + Frames({e})))
  {
  }

  // --------------------------------------------------------------------- one frame sent

  lemma PutOne(t: Trace, after: Cable, e: Scheduled<Event>)
    requires Valid(t.cable.queue) && e.event.FrameReceived? && Inserted(t.cable, after, e)
    ensures Put(t, after) == t.(cable := after, sent := t.sent + Frames({e}))
  {
  }

  lemma InsertKeeps(t: Trace, after: Cable, e: Scheduled<Event>)
    requires Invariant(t) && Inserted(t.cable, after, e)
    ensures Invariant(t.(cable := after, sent := t.sent + Frames({e})))
  {
    InsertedStaysValid(t.cable, after, e);
    InsertedStaysAccounted(t, after, e);
    InsertedStaysFifo(t.cable, after, e, true);
    InsertedStaysFifo(t.cable, after, e, false);
    InsertedStaysBehind(t, after, e, true);
    InsertedStaysBehind(t, after, e, false);
  }

  /** Nothing reached the queue; a reservation may have moved an arrival forward. */
  ghost predicate Reserved(before: Cable, after: Cable) {
    && after.queue == before.queue && after.active == before.active && after.generation == before.generation
    && Way(before, true).lastArrival <= Way(after, true).lastArrival <= U64_MAX
    && Way(before, false).lastArrival <= Way(after, false).lastArrival <= U64_MAX
  }

  lemma ReservedKeepsDirection(t: Trace, after: Cable, toB: bool)
    requires Direction(t, toB) && Reserved(t.cable, after)
    ensures Direction(t.(cable := after), toB)
  {
  }

  lemma ReservedKeeps(t: Trace, after: Cable)
    requires Invariant(t) && Reserved(t.cable, after)
    ensures Put(t, after) == t.(cable := after)
    ensures Invariant(t.(cable := after))
  {
    ReservedKeepsDirection(t, after, true);
    ReservedKeepsDirection(t, after, false);
    assert after.queue.pending - t.cable.queue.pending == {};
  }

  lemma TransmitLands(c: Cable, config: Link.LinkConfig, toB: bool, frame: Bytes, check: bool, jitter: nat, loss: nat)
    requires Link.ValidConfig(config) && Valid(c.queue)
    requires c.aToB.lastArrival <= U64_MAX && c.bToA.lastArrival <= U64_MAX
    ensures var r := Transmit(c, config, toB, frame, check, jitter, loss);
            if r.sending.Sent? then
              exists e: Scheduled<Event> :: Frame(e, toB) && e.event.frame == frame && Inserted(c, r.cable, e)
            else Reserved(c, r.cable)
  {
    var r := Transmit(c, config, toB, frame, check, jitter, loss);
    if r.sending.Sent? {
      var a := Link.Admit(Way(c, toB), config, c.queue.now, |frame|, jitter, loss);
      var e := Scheduled(a.admission.arrival, c.queue.nextSequence,
                         FrameReceived(toB, c.generation, a.admission.lost, frame));
      assert Frame(e, toB) && Inserted(c, r.cable, e);
    }
  }

  // -------------------------------------------------------------------- one event popped

  lemma PopKeepsFifo(t: Trace, check: bool, toB: bool)
    requires Valid(t.cable.queue) && t.cable.queue.pending != {} && Fifo(t.cable, toB)
    ensures Fifo(Took(t, check).cable, toB)
  {
  }

  /** A delivered frame was sent before every live frame that is still pending. */
  lemma HeadIsEarliest(c: Cable, toB: bool, x: Scheduled<Event>)
    requires Valid(c.queue) && c.queue.pending != {} && Fifo(c, toB)
    requires Live(c, Head(c.queue), toB) && Live(c, x, toB) && x != Head(c.queue)
    ensures Head(c.queue).sequence < x.sequence
  {
  }

  lemma PopKeepsOrder(t: Trace, check: bool, toB: bool)
    requires Valid(t.cable.queue) && t.cable.queue.pending != {} && Direction(t, toB)
    ensures Behind(Took(t, check).cable, Took(t, check).fates, toB) && Delivery(Took(t, check).fates, toB)
  {
    var c, r := t.cable, Took(t, check);
    var e := Head(c.queue);
    var f := Fate(e, Judge(c, e.event, check));
    assert r.fates == t.fates + [f];
    if Passed(f, toB) {
      assert Live(c, e, toB);
    }
    forall i, x | 0 <= i < |r.fates| && Passed(r.fates[i], toB) && Live(r.cable, x, toB)
      ensures r.fates[i].entry.sequence < x.sequence
    {
      assert Live(c, x, toB);
      if i == |t.fates| {
        HeadIsEarliest(c, toB, x);
      }
    }
  }

  lemma PopKeepsDirection(t: Trace, check: bool, toB: bool)
    requires Valid(t.cable.queue) && t.cable.queue.pending != {} && Direction(t, toB)
    ensures Direction(Took(t, check), toB)
  {
    PopKeepsFifo(t, check, toB);
    PopKeepsOrder(t, check, toB);
  }

  lemma PopKeepsAccounted(t: Trace, check: bool)
    requires Valid(t.cable.queue) && Accounted(t) && t.cable.queue.pending != {}
    ensures Accounted(Took(t, check))
  {
    var c, r := t.cable, Took(t, check);
    var e := Head(c.queue);
    var f := Fate(e, Judge(c, e.event, check));
    assert r.fates == t.fates + [f];
    assert Entries(r.fates) == Entries(t.fates) + {e};
    assert c.queue.pending == r.cable.queue.pending + {e};
    assert Explained(r.cable, f);
    forall i | 0 <= i < |t.fates| ensures Explained(r.cable, t.fates[i]) {
      assert Explained(c, t.fates[i]);
    }
  }

  lemma PopKeeps(t: Trace, check: bool)
    requires Invariant(t) && t.cable.queue.pending != {}
    ensures Invariant(Took(t, check))
  {
    PopKeepsValid(t.cable.queue);
    PopKeepsAccounted(t, check);
    PopKeepsDirection(t, check, true);
    PopKeepsDirection(t, check, false);
  }

  // ------------------------------------------------------------------ carrier and clock

  lemma CarrierKeepsDirection(t: Trace, up: bool, enabledA: bool, enabledB: bool, toB: bool)
    requires Invariant(t) && Direction(t, toB)
    ensures Direction(t.(cable := Refresh(t.cable, up, enabledA, enabledB)), toB)
  {
    var after := Refresh(t.cable, up, enabledA, enabledB);
    if after.generation == t.cable.generation {
      ReservedKeepsDirection(t, after, toB);
    } else {
      forall x ensures !Live(after, x, toB) {
      }
    }
  }

  lemma CarrierKeepsAccounted(t: Trace, up: bool, enabledA: bool, enabledB: bool)
    requires Accounted(t)
    ensures Accounted(t.(cable := Refresh(t.cable, up, enabledA, enabledB)))
  {
  }

  lemma IdleKeeps(t: Trace, time: nat)
    requires Invariant(t) && time <= U64_MAX
    ensures Invariant(t.(cable := t.cable.(queue := AdvanceTo(t.cable.queue, time).queue)))
  {
    var q := AdvanceTo(t.cable.queue, time).queue;
    AdvanceKeepsValid(t.cable.queue, time);
    assert q.pending == t.cable.queue.pending && q.nextSequence == t.cable.queue.nextSequence;
    var after := t.cable.(queue := q);
    IdleKeepsAccounted(t, q);
    IdleKeepsDirection(t, q, true);
    IdleKeepsDirection(t, q, false);
  }

  lemma IdleKeepsAccounted(t: Trace, q: Queue<Event>)
    requires Accounted(t) && q.pending == t.cable.queue.pending && q.nextSequence == t.cable.queue.nextSequence
    requires t.cable.queue.now <= q.now
    ensures Accounted(t.(cable := t.cable.(queue := q)))
  {
  }

  lemma IdleKeepsDirection(t: Trace, q: Queue<Event>, toB: bool)
    requires Direction(t, toB) && q.pending == t.cable.queue.pending
    ensures Direction(t.(cable := t.cable.(queue := q)), toB)
  {
  }

  lemma SendActionKeeps(t: Trace, a: Action)
    requires Invariant(t) && a.Send?
    ensures Invariant(Step(t, a))
  {
    if Link.ValidConfig(a.config) {
      TransmitLands(t.cable, a.config, a.toB, a.frame, a.check, a.jitter, a.loss);
      SendKeeps(t, Transmit(t.cable, a.config, a.toB, a.frame, a.check, a.jitter, a.loss), a.toB);
    }
  }

  lemma CarrierKeeps(t: Trace, up: bool, enabledA: bool, enabledB: bool)
    requires Invariant(t)
    ensures Invariant(t.(cable := Refresh(t.cable, up, enabledA, enabledB)))
  {
    CarrierKeepsAccounted(t, up, enabledA, enabledB);
    CarrierKeepsDirection(t, up, enabledA, enabledB, true);
    CarrierKeepsDirection(t, up, enabledA, enabledB, false);
  }

  lemma StepKeeps(t: Trace, a: Action)
    requires Invariant(t)
    ensures Invariant(Step(t, a))
  {
    match a
    case Send(_, _, _, _, _, _) => SendActionKeeps(t, a);
    case Carrier(up, enabledA, enabledB) => CarrierKeeps(t, up, enabledA, enabledB);
    case Next(check) =>
      if t.cable.queue.pending != {} {
        PopKeeps(t, check);
      }
    case Schedule(time, id) =>
      if time <= U64_MAX {
        ScheduleKeeps(t, time, id);
      }
    case Idle(time) =>
      if time <= U64_MAX {
        IdleKeeps(t, time);
      }
  }

  lemma SendKeeps(t: Trace, r: Transmitted, toB: bool)
    requires Invariant(t)
    requires if r.sending.Sent? then exists e: Scheduled<Event> :: Frame(e, toB) && Inserted(t.cable, r.cable, e)
             else Reserved(t.cable, r.cable)
    ensures Invariant(Put(t, r.cable))
  {
    if r.sending.Sent? {
      var e: Scheduled<Event> :| Frame(e, toB) && Inserted(t.cable, r.cable, e);
      PutOne(t, r.cable, e);
      InsertKeeps(t, r.cable, e);
    } else {
      ReservedKeeps(t, r.cable);
    }
  }

  lemma ScheduleKeeps(t: Trace, time: nat, id: nat)
    requires Invariant(t) && time <= U64_MAX
    ensures Invariant(t.(cable := t.cable.(queue := ScheduleAt(t.cable.queue, time, Timer(id)).queue)))
  {
    var s := ScheduleAt(t.cable.queue, time, Timer(id));
    if s.outcome.Done? {
      var e := Scheduled(time, t.cable.queue.nextSequence, Timer(id));
      var after := t.cable.(queue := s.queue);
      assert Inserted(t.cable, after, e);
      InsertKeeps(t, after, e);
      assert t.sent + Frames({e}) == t.sent;
    }
  }

  const NEW := Cable(Queue(0, 0, {}), Link.IDLE, Link.IDLE, true, false, 0)

  ghost function Run(t: Trace, actions: seq<Action>): (r: Trace)
    requires Invariant(t)
    ensures Invariant(r)
    decreases |actions|
  {
    if actions == [] then t
    else
      StepKeeps(t, actions[0]);
      Run(Step(t, actions[0]), actions[1..])
  }

  ghost function Begin(): (t: Trace)
    ensures Invariant(t)
  {
    Trace(NEW, {}, [])
  }

  // --------------------------------------------------------------------------- theorems

  /** The frames delivered in one direction, in order of delivery. */
  ghost function Deliveries(fates: seq<Fate>, toB: bool): seq<Scheduled<Event>> {
    if fates == [] then []
    else
      var n := |fates| - 1;
      Deliveries(fates[..n], toB) + (if Passed(fates[n], toB) then [fates[n].entry] else [])
  }

  lemma {:induction false} DeliveriesAreFates(fates: seq<Fate>, toB: bool)
    ensures forall x :: x in Deliveries(fates, toB) ==>
            exists i :: 0 <= i < |fates| && fates[i].entry == x && Passed(fates[i], toB)
    ensures forall i :: 0 <= i < |fates| && Passed(fates[i], toB) ==> fates[i].entry in Deliveries(fates, toB)
  {
    if fates != [] {
      var n := |fates| - 1;
      var front := fates[..n];
      DeliveriesAreFates(front, toB);
      forall x | x in Deliveries(fates, toB)
        ensures exists i :: 0 <= i < |fates| && fates[i].entry == x && Passed(fates[i], toB)
      {
        if x in Deliveries(front, toB) {
          var i :| 0 <= i < |front| && front[i].entry == x && Passed(front[i], toB);
          assert fates[i] == front[i];
        } else {
          assert fates[n].entry == x;
        }
      }
      forall i | 0 <= i < |fates| && Passed(fates[i], toB) ensures fates[i].entry in Deliveries(fates, toB) {
        if i < n {
          assert front[i] == fates[i];
        }
      }
    }
  }

  ghost predicate Increasing(s: seq<Scheduled<Event>>) {
    forall i, j :: 0 <= i < j < |s| ==> s[i].sequence < s[j].sequence && s[i].time <= s[j].time
  }

  lemma {:induction false} DeliveriesIncrease(fates: seq<Fate>, toB: bool)
    requires Delivery(fates, toB)
    requires forall i, j :: 0 <= i < j < |fates| ==> Before(fates[i].entry, fates[j].entry)
    ensures Increasing(Deliveries(fates, toB))
  {
    if fates != [] {
      var n := |fates| - 1;
      var front := fates[..n];
      DeliveriesIncrease(front, toB);
      DeliveriesAreFates(front, toB);
      if Passed(fates[n], toB) {
        forall x | x in Deliveries(front, toB)
          ensures x.sequence < fates[n].entry.sequence && x.time <= fates[n].entry.time
        {
          var i :| 0 <= i < |front| && front[i].entry == x && Passed(front[i], toB);
          assert fates[i] == front[i];
          assert Before(fates[i].entry, fates[n].entry);
        }
      }
    }
  }

  /**
   The channel of the protocol models: over every run, with any link policy per frame, loss,
   outages and other events, each direction delivers frames that were sent, in the order
   they were sent (which is insertion order), none twice, at times that never go back.
   */
  lemma FifoDelivery(actions: seq<Action>, toB: bool)
    ensures var t := Run(Begin(), actions);
            var d := Deliveries(t.fates, toB);
            && Increasing(d)
            && (forall x :: x in d ==> x in t.sent && Frame(x, toB) && !x.event.lost)
  {
    var t := Run(Begin(), actions);
    assert Direction(t, toB);
    DeliveriesIncrease(t.fates, toB);
    DeliveriesAreFates(t.fates, toB);
    forall x | x in Deliveries(t.fates, toB) ensures x in t.sent && Frame(x, toB) && !x.event.lost {
      var i :| 0 <= i < |t.fates| && t.fates[i].entry == x && Passed(t.fates[i], toB);
      assert Explained(t.cable, t.fates[i]);
    }
  }

  /**
   Nothing is lost without a cause: a frame sent under the carrier that is still up, not
   marked lost and no longer pending, was delivered or refused by the receiving device.
   */
  lemma NothingLostSilently(actions: seq<Action>, x: Scheduled<Event>, toB: bool)
    requires var t := Run(Begin(), actions);
             && x in t.sent && x !in t.cable.queue.pending && Frame(x, toB) && !x.event.lost
             && t.cable.active && x.event.generation == t.cable.generation
    ensures var t := Run(Begin(), actions);
            x in Deliveries(t.fates, toB) || Fate(x, Rejected) in t.fates
  {
    FateOf(Run(Begin(), actions), x, toB);
  }

  lemma FateOf(t: Trace, x: Scheduled<Event>, toB: bool)
    requires Accounted(t)
    requires x in t.sent && x !in t.cable.queue.pending && Frame(x, toB) && !x.event.lost
    requires t.cable.active && x.event.generation == t.cable.generation
    ensures x in Deliveries(t.fates, toB) || Fate(x, Rejected) in t.fates
  {
    assert x in Entries(t.fates);
    var f :| f in t.fates && f.entry == x;
    var i :| 0 <= i < |t.fates| && t.fates[i] == f;
    assert Explained(t.cable, t.fates[i]);
    DeliveriesAreFates(t.fates, toB);
  }
}
