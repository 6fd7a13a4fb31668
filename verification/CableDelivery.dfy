/**
 What becomes of one frame: exactly when it is admitted, sent and judged fit, and that a frame
 on its way under a carrier that stays up is delivered once the events before it have been taken.
 */
module CableDelivery {
  import opened Prelude
  import Link = LinkSpec
  import Events = EventQueueSpec
  import opened CableSpec

  // -------------------------------------------------------------------------- admission

  /** The last `n` frames of the line still hold it after `now`, and no others do. */
  ghost predicate Waiting(finishes: seq<nat>, now: nat, n: nat) {
    && n <= |finishes|
    && (forall i :: 0 <= i < |finishes| - n ==> finishes[i] <= now)
    && (forall i :: |finishes| - n <= i < |finishes| ==> now < finishes[i])
  }

  /** The first moment from `now` on at which the line is free. */
  ghost predicate FreeFrom(finishes: seq<nat>, now: nat, t: nat) {
    now <= t && (forall f :: f in finishes ==> f <= t) && (t == now || t in finishes)
  }

  /** Whole microseconds that the frame takes on the wire: the fewest that fit its bits. */
  ghost predicate Takes(c: Link.LinkConfig, bytes: nat, us: nat) {
    match c.bandwidth
    case None => us == 0
    case Some(rate) => bytes * 8_000_000 <= rate * us < bytes * 8_000_000 + rate
  }

  lemma LineIsFree(finishes: seq<nat>, now: nat) returns (n: nat)
    requires Link.Sorted(finishes)
    ensures Waiting(finishes, now, n) && Link.Prune(finishes, now) == finishes[|finishes| - n..]
    ensures FreeFrom(finishes, now, Link.AvailableAt(Link.Prune(finishes, now), now))
  {
    Link.PruneKeepsLater(finishes, now);
    n := |Link.Prune(finishes, now)|;
    if n > 0 {
      var last := finishes[|finishes| - 1];
      assert Link.Prune(finishes, now)[n - 1] == last;
      assert last in finishes;
    }
  }

  /**
   A frame is refused exactly when the queue is full of waiting frames; otherwise it goes on the
   wire when the line is free and arrives after the delay, shifted by up to the jitter either way,
   but never before the frame ahead of it; it is lost for the configured share of the samples.
   */
  lemma AdmitExactly(r: Link.Runtime, c: Link.LinkConfig, now: nat, bytes: nat, jitter: nat, loss: nat)
    returns (n: nat, start: nat, us: nat)
    requires Link.ValidConfig(c) && Link.Sorted(r.finishes)
    ensures Waiting(r.finishes, now, n) && FreeFrom(r.finishes, now, start) && Takes(c, bytes, us)
    ensures var a, shift := Link.Admit(r, c, now, bytes, jitter, loss), jitter % (2 * c.jitter + 1) - c.jitter;
            var raw := start + us + Max(0, c.delay + shift);
            var kept := r.finishes[|r.finishes| - n..];
            && (a.admission.Full? <==> c.queuePackets <= n)
            && (a.admission.Full? ==> a.runtime == r.(finishes := kept, queueDrops := SatAdd64(r.queueDrops, 1)))
            && (a.admission.Overflowed? <==> n < c.queuePackets && U64_MAX < raw)
            && (a.admission.Overflowed? ==> a.runtime == r.(finishes := kept))
            && (n < c.queuePackets && raw <= U64_MAX ==>
                  && a.admission == Link.Scheduled(Max(raw, r.lastArrival), loss % 1_000_000 < c.lossPpm)
                  && a.runtime.finishes == kept + [start + us] && a.runtime.lastArrival == Max(raw, r.lastArrival)
                  && a.runtime.txPackets == SatAdd64(r.txPackets, 1)
                  && a.runtime.txBytes == SatAdd64(r.txBytes, bytes) && a.runtime.queueDrops == r.queueDrops)
  {
    n := LineIsFree(r.finishes, now);
    start := Link.AvailableAt(Link.Prune(r.finishes, now), now);
    us := Link.Serialization(c, bytes);
    if c.bandwidth.Some? {
      Link.SerializationIsTight(bytes, c.bandwidth.value);
    }
  }

  // ------------------------------------------------------------- transmitting and judging

  /** A frame enters the queue exactly when the link is up, the device passes it and the line admits it. */
  lemma TransmitExactly(c: Cable, config: Link.LinkConfig, toB: bool, frame: Bytes, check: bool, jitter: nat, loss: nat)
    requires Link.ValidConfig(config)
    ensures var r := Transmit(c, config, toB, frame, check, jitter, loss);
            var a := Link.Admit(Way(c, toB), config, c.queue.now, |frame|, jitter, loss);
            && (r.sending.LinkDown? <==> !c.up) && (r.sending.CheckFailed? <==> c.up && !check)
            && (r.sending.QueueFull? <==> c.up && check && a.admission.Full?)
            && (r.sending.Sent? <==> c.up && check && a.admission.Scheduled? && c.queue.nextSequence < U64_MAX)
            && (if c.up && check
                then Way(r.cable, toB) == a.runtime && Way(r.cable, !toB) == Way(c, !toB) else r.cable == c)
            && (r.cable.up, r.cable.active, r.cable.generation) == (c.up, c.active, c.generation)
            && r.cable.queue ==
                 if r.sending.Sent? then
                   var e := FrameReceived(toB, c.generation, a.admission.lost, frame);
                   Events.Queue(c.queue.now, c.queue.nextSequence + 1,
                         c.queue.pending + {Events.Scheduled(a.admission.arrival, c.queue.nextSequence, e)})
                 else c.queue
  {
  }

  /** The carrier is up exactly when the link and both interfaces are; each change idles both lines. */
  lemma RefreshExactly(c: Cable, up: bool, enabledA: bool, enabledB: bool)
    requires c.generation <= U64_MAX
    ensures var r, carrier := Refresh(c, up, enabledA, enabledB), up && enabledA && enabledB;
            && r.up == up && r.queue == c.queue
            && r.generation <= U64_MAX
            && (c.generation < U64_MAX ==> r.active == carrier)
            && (r.active == c.active ==> r == c.(up := up))
            && (r.active != c.active ==>
                  && r.generation == c.generation + 1
                  && r.aToB == c.aToB.(finishes := [], lastArrival := 0)
                  && r.bToA == c.bToA.(finishes := [], lastArrival := 0))
  {
  }

  /** A frame is delivered exactly when its carrier is still up, it was not lost, and the receiver passes it. */
  lemma JudgeExactly(c: Cable, e: Event, check: bool)
    ensures var v := Judge(c, e, check);
            && (v.NotAFrame? <==> e.Timer?)
            && (v.Delivered? <==>
                  e.FrameReceived? && c.active && e.generation == c.generation && !e.lost && check)
            && (v.Rejected? <==> e.FrameReceived? && c.active && e.generation == c.generation && !e.lost && !check)
            && (v.SimulatedLoss? <==> e.FrameReceived? && c.active && e.generation == c.generation && e.lost)
  {
  }

  // ------------------------------------------------------------------------- whole runs

  /** The carrier does not change, and receivers pass what they are given. */
  ghost predicate Calm(t: Trace, actions: seq<Action>)
    requires CableSpec.Invariant(t)
    decreases |actions|
  {
    actions == [] ||
    (&& (actions[0].Carrier? ==>
           (actions[0].up && actions[0].enabledA && actions[0].enabledB) == t.cable.active)
     && (actions[0].Next? ==> actions[0].check)
     && var next := Step(t, actions[0]); CableSpec.Invariant(next) && Calm(next, actions[1..]))
  }

  /** Still on its way, or delivered. */
  ghost predicate OnItsWay(t: Trace, x: Events.Scheduled<Event>, toB: bool) {
    && t.cable.active && Frame(x, toB) && !x.event.lost && x.event.generation == t.cable.generation
    && (x in t.cable.queue.pending || Fate(x, Delivered) in t.fates)
  }

  lemma StepOnItsWay(t: Trace, a: Action, x: Events.Scheduled<Event>, toB: bool)
    requires CableSpec.Invariant(t) && OnItsWay(t, x, toB)
    requires a.Carrier? ==> (a.up && a.enabledA && a.enabledB) == t.cable.active
    requires a.Next? ==> a.check
    ensures OnItsWay(Step(t, a), x, toB)
  {
    if a.Send? && Link.ValidConfig(a.config) {
      TransmitExactly(t.cable, a.config, a.toB, a.frame, a.check, a.jitter, a.loss);
    }
  }

  lemma {:induction false} RunOnItsWay(t: Trace, actions: seq<Action>, x: Events.Scheduled<Event>, toB: bool)
    requires CableSpec.Invariant(t) && Calm(t, actions) && OnItsWay(t, x, toB)
    ensures OnItsWay(Run(t, actions), x, toB)
    decreases |actions|
  {
    if actions != [] {
      StepOnItsWay(t, actions[0], x, toB);
      RunOnItsWay(Step(t, actions[0]), actions[1..], x, toB);
    }
  }

  /** Events taken one after the other, each frame passed by its receiver. */
  function Nexts(n: nat): seq<Action> {
    seq(n, i => Next(true))
  }

  lemma NextsStep(n: nat)
    requires n > 0
    ensures Nexts(n) != [] && Nexts(n)[0] == Next(true) && Nexts(n)[1..] == Nexts(n - 1)
  {
  }

  lemma TakesOne(t: Trace)
    requires CableSpec.Invariant(t) && t.cable.queue.pending != {}
    ensures CableSpec.Invariant(Step(t, Next(true)))
    ensures |Step(t, Next(true)).cable.queue.pending| == |t.cable.queue.pending| - 1
  {
    StepKeeps(t, Next(true));
    assert Events.Head(t.cable.queue) in t.cable.queue.pending;
  }

  lemma {:induction false} NextsDrain(t: Trace, n: nat)
    requires CableSpec.Invariant(t) && n == |t.cable.queue.pending|
    ensures Calm(t, Nexts(n)) && Run(t, Nexts(n)).cable.queue.pending == {}
    decreases n
  {
    if n > 0 {
      NextsStep(n);
      TakesOne(t);
      NextsDrain(Step(t, Next(true)), n - 1);
    }
  }

  lemma WayEnds(t: Trace, x: Events.Scheduled<Event>, toB: bool)
    requires OnItsWay(t, x, toB) && x !in t.cable.queue.pending
    ensures x in Deliveries(t.fates, toB)
  {
    DeliveriesAreFates(t.fates, toB);
    var i :| 0 <= i < |t.fates| && t.fates[i] == Fate(x, Delivered);
    assert Passed(t.fates[i], toB);
  }

  /**
   Over every run: a frame on its way under a carrier that stays up is not lost. Whatever else
   is sent, scheduled or waited for, it is still pending or delivered, and once as many events
   have been taken as are pending, it is delivered.
   */
  lemma SentIsDelivered(actions: seq<Action>, more: seq<Action>, x: Events.Scheduled<Event>, toB: bool)
    requires var t := Run(Begin(), actions);
             t.cable.active && Live(t.cable, x, toB) && !x.event.lost && Calm(t, more)
    ensures var r := Run(Run(Begin(), actions), more);
            && (x in r.cable.queue.pending || x in Deliveries(r.fates, toB))
            && x in Deliveries(Run(r, Nexts(|r.cable.queue.pending|)).fates, toB)
  {
    var r := Run(Run(Begin(), actions), more);
    RunOnItsWay(Run(Begin(), actions), more, x, toB);
    NextsDrain(r, |r.cable.queue.pending|);
    RunOnItsWay(r, Nexts(|r.cable.queue.pending|), x, toB);
    WayEnds(Run(r, Nexts(|r.cable.queue.pending|)), x, toB);
    if x !in r.cable.queue.pending {
      WayEnds(r, x, toB);
    }
  }
}
