/** The deterministic event queue: one clock, ties broken by insertion order. */
module EventQueueSpec {
  import opened Prelude

  datatype Scheduled<E> = Scheduled(time: nat, sequence: nat, event: E)

  datatype ScheduleError = Past | Overflow | PendingEvent

  datatype Outcome = Done | Failed(error: ScheduleError)

  datatype Queue<E(==)> = Queue(now: nat, nextSequence: nat, pending: set<Scheduled<E>>)

  /** Delivery order: time first, then insertion. */
  predicate Before<E>(a: Scheduled<E>, b: Scheduled<E>) {
    a.time < b.time || (a.time == b.time && a.sequence < b.sequence)
  }

  /** Nothing pending is delivered before `e`. */
  ghost predicate First<E>(pending: set<Scheduled<E>>, e: Scheduled<E>) {
    e in pending && forall x :: x in pending ==> x == e || Before(e, x)
  }

  /** What every operation keeps: insertion numbers are distinct and nothing pending is in the past. */
  ghost predicate Valid<E>(q: Queue<E>) {
    && q.nextSequence <= U64_MAX && q.now <= U64_MAX
    && (forall x :: x in q.pending ==> q.now <= x.time <= U64_MAX && x.sequence < q.nextSequence)
    && (forall x, y :: x in q.pending && y in q.pending && x.sequence == y.sequence ==> x == y)
  }

  lemma FirstExists<E>(q: Queue<E>)
    requires Valid(q) && q.pending != {}
    ensures exists e :: First(q.pending, e)
    decreases q.pending
  {
    var x :| x in q.pending;
    var rest := q.(pending := q.pending - {x});
    assert q.pending == rest.pending + {x};
    if rest.pending == {} {
      assert First(q.pending, x);
    } else {
      FirstExists(rest);
      var e :| First(rest.pending, e);
      if Before(x, e) {
        assert First(q.pending, x);
      } else {
        assert First(q.pending, e);
      }
    }
  }

  lemma FirstIsUnique<E>(pending: set<Scheduled<E>>, a: Scheduled<E>, b: Scheduled<E>)
    requires First(pending, a) && First(pending, b)
    ensures a == b
  {
  }

  ghost function Head<E>(q: Queue<E>): (e: Scheduled<E>)
    requires Valid(q) && q.pending != {}
    ensures First(q.pending, e)
  {
    FirstExists(q);
    var e :| First(q.pending, e);
    e
  }

  datatype Attempt<E(==)> = Attempt(queue: Queue<E>, outcome: Outcome)

  function ScheduleAt<E>(q: Queue<E>, time: nat, event: E): Attempt<E> {
    if time < q.now then Attempt(q, Failed(Past))
    else if q.nextSequence + 1 > U64_MAX then Attempt(q, Failed(Overflow))
    else Attempt(Queue(q.now, q.nextSequence + 1, q.pending + {Scheduled(time, q.nextSequence, event)}), Done)
  }

  function ScheduleAfter<E>(q: Queue<E>, delayMs: nat, event: E): Attempt<E> {
    if delayMs * 1000 > U64_MAX || q.now + delayMs * 1000 > U64_MAX then Attempt(q, Failed(Overflow))
    else ScheduleAt(q, q.now + delayMs * 1000, event)
  }

  ghost function Pop<E>(q: Queue<E>): Queue<E>
    requires Valid(q)
  {
    if q.pending == {} then q else q.(now := Head(q).time, pending := q.pending - {Head(q)})
  }

  ghost function AdvanceTo<E>(q: Queue<E>, time: nat): Attempt<E>
    requires Valid(q)
  {
    if time < q.now then Attempt(q, Failed(Past))
    else if q.pending != {} && Head(q).time <= time then Attempt(q, Failed(PendingEvent))
    else Attempt(q.(now := time), Done)
  }

  /** An event is refused exactly for lying in the past, or for want of a clock value or an insertion number. */
  lemma SchedulesExactly<E>(q: Queue<E>, time: nat, delayMs: nat, event: E)
    ensures var s, d := ScheduleAt(q, time, event), ScheduleAfter(q, delayMs, event);
            && (s.outcome.Done? <==> q.now <= time && q.nextSequence < U64_MAX)
            && (s.outcome == Failed(Past) <==> time < q.now)
            && (d.outcome.Done? <==> q.now + 1000 * delayMs <= U64_MAX && q.nextSequence < U64_MAX)
            && (!d.outcome.Done? ==> d.outcome == Failed(Overflow))
  {
  }

  /** Time passes on its own exactly up to the moment before the first pending event. */
  lemma AdvancesExactly<E>(q: Queue<E>, time: nat)
    requires Valid(q)
    ensures var r := AdvanceTo(q, time);
            && (r.outcome.Done? <==> q.now <= time && forall x :: x in q.pending ==> time < x.time)
            && r.queue == (if r.outcome.Done? then q.(now := time) else q)
            && (r.outcome == Failed(PendingEvent) <==> q.now <= time && exists x :: x in q.pending && x.time <= time)
  {
  }

  /** Popping and waiting keep the queue valid and never move the clock back. */
  lemma PopKeepsValid<E>(q: Queue<E>)
    requires Valid(q)
    ensures Valid(Pop(q)) && q.now <= Pop(q).now
  {
  }

  lemma AdvanceKeepsValid<E>(q: Queue<E>, time: nat)
    requires Valid(q) && time <= U64_MAX
    ensures Valid(AdvanceTo(q, time).queue) && q.now <= AdvanceTo(q, time).queue.now
  {
  }

  // ------------------------------------------------------------------------- whole runs

  datatype Action<E> = At(time: nat, event: E) | After(delayMs: nat, event: E) | Next | Advance(time: nat)

  /** A queue with everything it has ever taken in and given out. */
  datatype History<E(==)> = History(queue: Queue<E>, scheduled: set<Scheduled<E>>, popped: seq<Scheduled<E>>)

  ghost function Step<E>(t: History<E>, a: Action<E>): History<E>
    requires Valid(t.queue)
  {
    match a
    case At(time, event) => if time > U64_MAX then t else Took(t, ScheduleAt(t.queue, time, event).queue)
    case After(delay, event) => Took(t, ScheduleAfter(t.queue, delay, event).queue)
    case Next => if t.queue.pending == {} then t else Gave(t)
    case Advance(time) => if time > U64_MAX then t else t.(queue := AdvanceTo(t.queue, time).queue)
  }

  ghost function Took<E>(t: History<E>, q: Queue<E>): History<E> {
    History(q, t.scheduled + (q.pending - t.queue.pending), t.popped)
  }

  ghost function Gave<E>(t: History<E>): History<E>
    requires Valid(t.queue) && t.queue.pending != {}
  {
    History(Pop(t.queue), t.scheduled, t.popped + [Head(t.queue)])
  }

  /** Everything scheduled is pending or has left, under its own insertion number. */
  ghost predicate Conserved<E>(t: History<E>) {
    && t.scheduled == t.queue.pending + (set x | x in t.popped)
    && (forall x, y :: x in t.scheduled && y in t.scheduled && x.sequence == y.sequence ==> x == y)
    && (forall x :: x in t.scheduled ==> x.sequence < t.queue.nextSequence)
  }

  /** What has left did so in delivery order, up to now, and before everything pending. */
  ghost predicate Ordered<E>(t: History<E>) {
    && (forall i :: 0 <= i < |t.popped| ==> t.popped[i].time <= t.queue.now)
    && (forall i, j :: 0 <= i < j < |t.popped| ==> Before(t.popped[i], t.popped[j]))
    && (forall i, x :: 0 <= i < |t.popped| && x in t.queue.pending ==> Before(t.popped[i], x))
  }

  ghost predicate Accounted<E>(t: History<E>) {
    Valid(t.queue) && Conserved(t) && Ordered(t)
  }

  ghost predicate Inserts<E>(q: Queue<E>, r: Queue<E>, time: nat, event: E) {
    && q.now <= time <= U64_MAX && q.nextSequence < U64_MAX
    && r == q.(nextSequence := q.nextSequence + 1, pending := q.pending + {Scheduled(time, q.nextSequence, event)})
  }

  lemma AtInserts<E>(q: Queue<E>, time: nat, event: E)
    requires time <= U64_MAX
    ensures var r := ScheduleAt(q, time, event).queue; r == q || Inserts(q, r, time, event)
  {
  }

  /** A relative timer is an absolute one, or nothing at all. */
  lemma AfterInserts<E>(q: Queue<E>, delay: nat, event: E)
    ensures var r := ScheduleAfter(q, delay, event).queue; r == q || Inserts(q, r, q.now + delay * 1000, event)
  {
  }

  lemma InsertKeepsValid<E>(q: Queue<E>, r: Queue<E>, time: nat, event: E)
    requires Valid(q) && Inserts(q, r, time, event)
    ensures Valid(r)
  {
  }

  lemma InsertConserves<E>(t: History<E>, q: Queue<E>, time: nat, event: E)
    requires Conserved(t) && Valid(t.queue) && Inserts(t.queue, q, time, event)
    ensures Conserved(Took(t, q))
  {
    assert Took(t, q).scheduled == t.scheduled + {Scheduled(time, t.queue.nextSequence, event)};
  }

  lemma InsertKeepsOrder<E>(t: History<E>, q: Queue<E>, time: nat, event: E)
    requires Conserved(t) && Ordered(t) && Inserts(t.queue, q, time, event)
    ensures Ordered(Took(t, q))
  {
    var e := Scheduled(time, t.queue.nextSequence, event);
    forall i | 0 <= i < |t.popped| ensures Before(t.popped[i], e) {
      assert t.popped[i] in t.scheduled;
    }
  }

  lemma TookNothing<E>(t: History<E>)
    ensures Took(t, t.queue) == t
  {
  }

  lemma TookKeeps<E>(t: History<E>, q: Queue<E>, time: nat, event: E)
    requires Accounted(t) && (q == t.queue || Inserts(t.queue, q, time, event))
    ensures Accounted(Took(t, q))
  {
    if q == t.queue {
      TookNothing(t);
    } else {
      InsertKeepsValid(t.queue, q, time, event);
      InsertConserves(t, q, time, event);
      InsertKeepsOrder(t, q, time, event);
    }
  }

  lemma GaveKeepsOrder<E>(t: History<E>)
    requires Valid(t.queue) && Ordered(t) && t.queue.pending != {}
    ensures Ordered(Gave(t))
  {
    assert Gave(t).popped == t.popped + [Head(t.queue)];
  }

  lemma GaveConserves<E>(t: History<E>)
    requires Valid(t.queue) && Conserved(t) && t.queue.pending != {}
    ensures Conserved(Gave(t))
  {
    var r := Gave(t);
    assert r.popped == t.popped + [Head(t.queue)];
    assert (set x | x in r.popped) == (set x | x in t.popped) + {Head(t.queue)};
  }

  lemma GaveKeeps<E>(t: History<E>)
    requires Accounted(t) && t.queue.pending != {}
    ensures Accounted(Gave(t))
  {
    PopKeepsValid(t.queue);
    GaveKeepsOrder(t);
    GaveConserves(t);
  }

  lemma AdvanceKeeps<E>(t: History<E>, time: nat)
    requires Accounted(t) && time <= U64_MAX
    ensures Accounted(t.(queue := AdvanceTo(t.queue, time).queue)) && t.queue.now <= AdvanceTo(t.queue, time).queue.now
  {
  }

  lemma StepKeeps<E>(t: History<E>, a: Action<E>)
    requires Accounted(t)
    ensures Accounted(Step(t, a))
  {
    match a
    case At(time, event) =>
      if time <= U64_MAX {
        AtInserts(t.queue, time, event);
        TookKeeps(t, ScheduleAt(t.queue, time, event).queue, time, event);
      }
    case After(delay, event) =>
      AfterInserts(t.queue, delay, event);
      TookKeeps(t, ScheduleAfter(t.queue, delay, event).queue, t.queue.now + delay * 1000, event);
    case Next =>
      if t.queue.pending != {} {
        GaveKeeps(t);
      }
    case Advance(time) =>
      if time <= U64_MAX {
        AdvanceKeeps(t, time);
      }
  }

  lemma ClockNeverGoesBack<E>(t: History<E>, a: Action<E>)
    requires Valid(t.queue)
    ensures t.queue.now <= Step(t, a).queue.now
  {
  }

  ghost function Run<E>(t: History<E>, actions: seq<Action<E>>): (r: History<E>)
    requires Accounted(t)
    ensures Accounted(r) && t.queue.now <= r.queue.now
    decreases |actions|
  {
    if actions == [] then t
    else
      StepKeeps(t, actions[0]);
      ClockNeverGoesBack(t, actions[0]);
      Run(Step(t, actions[0]), actions[1..])
  }

  ghost function Begin<E>(): History<E> {
    History(Queue(0, 0, {}), {}, [])
  }

  /**
   Over every run, events leave in strictly increasing (time, insertion) order, and each
   event taken in is pending or has left exactly once.
   */
  lemma LeavesInOrder<E>(actions: seq<Action<E>>)
    ensures var t := Run(Begin<E>(), actions);
            && (forall i, j :: 0 <= i < j < |t.popped| ==> Before(t.popped[i], t.popped[j]))
            && (forall x :: x in t.scheduled <==> (x in t.queue.pending) != (x in t.popped))
  {
  }
}

/** The mutable queue, proved against `EventQueueSpec`. */
module EventQueueObject {
  import opened Prelude
  import opened EventQueueSpec

  class EventQueue<E(==)> {
    var now: nat
    var nextSequence: nat
    var pending: set<Scheduled<E>>

    ghost function Value(): Queue<E>
      reads this
    {
      Queue(now, nextSequence, pending)
    }

    constructor ()
      ensures Value() == Queue(0, 0, {}) && Valid(Value())
    {
      now, nextSequence, pending := 0, 0, {};
    }

    /** The pending event a heap would have at its top. */
    method Peek() returns (top: Option<Scheduled<E>>)
      requires Valid(Value())
      ensures top == if pending == {} then None else Some(Head(Value()))
    {
      if pending == {} {
        return None;
      }
      FirstExists(Value());
      assert exists e :: e in pending && forall x :: x in pending ==> x == e || Before(e, x) by {
        assert First(pending, Head(Value()));
      }
      var e :| e in pending && forall x :: x in pending ==> x == e || Before(e, x);
      FirstIsUnique(pending, e, Head(Value()));
      return Some(e);
    }

    method ScheduleAt(time: nat, event: E) returns (outcome: Outcome)
      requires Valid(Value()) && time <= U64_MAX
      modifies this
      ensures Attempt(Value(), outcome) == EventQueueSpec.ScheduleAt(old(Value()), time, event)
      ensures Valid(Value())
    {
      if time < now {
        return Failed(Past);
      }
      if nextSequence == U64_MAX {
        return Failed(Overflow);
      }
      pending := pending + {Scheduled(time, nextSequence, event)};
      nextSequence := nextSequence + 1;
      return Done;
    }

    method ScheduleAfter(delayMs: nat, event: E) returns (outcome: Outcome)
      requires Valid(Value())
      modifies this
      ensures Attempt(Value(), outcome) == EventQueueSpec.ScheduleAfter(old(Value()), delayMs, event)
      ensures Valid(Value())
    {
      if delayMs * 1000 > U64_MAX || now + delayMs * 1000 > U64_MAX {
        return Failed(Overflow);
      }
      outcome := ScheduleAt(now + delayMs * 1000, event);
    }

    /** Pop one event and move the clock to its timestamp. */
    method Step() returns (popped: Option<Scheduled<E>>)
      requires Valid(Value())
      modifies this
      ensures Value() == Pop(old(Value())) && Valid(Value())
      ensures popped == if old(pending) == {} then None else Some(Head(old(Value())))
    {
      popped := Peek();
      if popped.Some? {
        pending := pending - {popped.value};
        now := popped.value.time;
      }
    }

    /** Advance through idle time only. */
    method AdvanceTo(time: nat) returns (outcome: Outcome)
      requires Valid(Value()) && time <= U64_MAX
      modifies this
      ensures Attempt(Value(), outcome) == EventQueueSpec.AdvanceTo(old(Value()), time)
      ensures Valid(Value())
    {
      if time < now {
        return Failed(Past);
      }
      var top := Peek();
      if top.Some? && top.value.time <= time {
        return Failed(PendingEvent);
      }
      now := time;
      return Done;
    }
  }
}
