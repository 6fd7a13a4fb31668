/** A cable joined to the event queue, proved against `CableSpec`. */
module CableObject {
  import opened Prelude
  import Link = LinkSpec
  import Spec = CableSpec
  import Queue = EventQueueSpec
  import opened LinkObject
  import opened EventQueueObject

  class Cable {
    const queue: EventQueue<Spec.Event>
    const aToB: DirectionalLink
    const bToA: DirectionalLink
    var up: bool
    var active: bool
    var generation: nat

    ghost function Value(): Spec.Cable
      reads this, queue, aToB, bToA
    {
      Spec.Cable(queue.Value(), aToB.Value(), bToA.Value(), up, active, generation)
    }

    ghost predicate Valid()
      reads this, queue, aToB, bToA
    {
      && aToB != bToA
      && Queue.Valid(queue.Value())
      && aToB.lastArrival <= U64_MAX && bToA.lastArrival <= U64_MAX
    }

    constructor ()
      ensures Valid() && Value() == Spec.NEW
      ensures fresh(queue) && fresh(aToB) && fresh(bToA)
    {
      queue := new EventQueue();
      aToB := new DirectionalLink();
      bToA := new DirectionalLink();
      up, active, generation := true, false, 0;
    }

    /** Move a frame into the cable; it is delivered only when its event is popped. */
    method Transmit(config: Link.LinkConfig, towardB: bool, frame: Spec.Bytes, check: bool, jitter: nat, loss: nat)
      returns (sending: Spec.Sending)
      requires Valid() && Link.ValidConfig(config)
      modifies queue, aToB, bToA
      ensures Valid()
      ensures Spec.Transmitted(Value(), sending)
              == Spec.Transmit(old(Value()), config, towardB, frame, check, jitter, loss)
    {
      if !up {
        return Spec.LinkDown;
      }
      if !check {
        return Spec.CheckFailed;
      }
      var way := if towardB then aToB else bToA;
      var admission := way.Admit(config, queue.now, |frame|, jitter, loss);
      match admission
      case Full => return Spec.QueueFull;
      case Overflowed => return Spec.ScheduleFailed;
      case Scheduled(arrival, lost) =>
        var outcome := queue.ScheduleAt(arrival, Spec.FrameReceived(towardB, generation, lost, frame));
        return if outcome.Done? then Spec.Sent else Spec.ScheduleFailed;
    }

    /** Carrier follows the link state and both interfaces. */
    method Refresh(linkUp: bool, enabledA: bool, enabledB: bool) returns (ok: bool)
      requires Valid()
      modifies this, aToB, bToA
      ensures Valid()
      ensures Value() == Spec.Refresh(old(Value()), linkUp, enabledA, enabledB)
      ensures ok == ((linkUp && enabledA && enabledB) == old(active) || old(generation) < U64_MAX)
    {
      up := linkUp;
      var carrier := linkUp && enabledA && enabledB;
      if carrier != active {
        if generation + 1 > U64_MAX {
          return false;
        }
        generation := generation + 1;
        active := carrier;
        aToB.Reset();
        bToA.Reset();
      }
      return true;
    }

    /** Pop one event and decide what becomes of it. */
    method Step(check: bool) returns (fate: Option<Spec.Fate>)
      requires Valid()
      modifies queue
      ensures Valid()
      ensures Value() == old(Value()).(queue := Queue.Pop(old(Value().queue)))
      ensures fate == if old(queue.pending) == {} then None
                      else var e := Queue.Head(old(Value().queue));
                           Some(Spec.Fate(e, Spec.Judge(old(Value()), e.event, check)))
    {
      var popped := queue.Step();
      match popped
      case None => return None;
      case Some(entry) =>
        var verdict;
        match entry.event {
          case Timer(_) => verdict := Spec.NotAFrame;
          case FrameReceived(_, sentUnder, lost, _) =>
            if !active || sentUnder != generation {
              verdict := Spec.LinkChanged;
            } else if lost {
              verdict := Spec.SimulatedLoss;
            } else if !check {
              verdict := Spec.Rejected;
            } else {
              verdict := Spec.Delivered;
            }
        }
        return Some(Spec.Fate(entry, verdict));
    }
  }
}
