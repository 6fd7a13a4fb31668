/** The transmitter of one cable direction, proved against `LinkSpec`. */
module LinkObject {
  import opened Prelude
  import opened LinkSpec

  class DirectionalLink {
    var finishes: seq<nat>
    var lastArrival: nat
    var txPackets: nat
    var txBytes: nat
    var queueDrops: nat

    ghost function Value(): Runtime
      reads this
    {
      Runtime(finishes, lastArrival, txPackets, txBytes, queueDrops)
    }

    constructor ()
      ensures Value() == IDLE
    {
      finishes, lastArrival, txPackets, txBytes, queueDrops := [], 0, 0, 0, 0;
    }

    /** First time a new frame can begin serialisation. */
    function Available(now: nat): (start: nat)
      reads this
      ensures start == AvailableAt(finishes, now)
    {
      Max(if finishes == [] then now else finishes[|finishes| - 1], now)
    }

    method QueuedAt(now: nat) returns (count: nat)
      ensures count == Queued(finishes, now)
    {
      count := 0;
      var i := |finishes|;
      while i > 0
        invariant 0 <= i <= |finishes|
        invariant count == Queued(finishes[i..], now)
      {
        i := i - 1;
        assert finishes[i..][1..] == finishes[i + 1..];
        if finishes[i] > now {
          count := count + 1;
        }
      }
    }

    /** Invalidate reservations after an outage. */
    method Reset()
      modifies this
      ensures Value() == LinkSpec.Reset(old(Value()))
    {
      finishes, lastArrival := [], 0;
    }

    /** Reserve a place in the transmitter for one frame. */
    method Admit(c: LinkConfig, now: nat, bytes: nat, jitterSample: nat, lossSample: nat) returns (admission: Admission)
      requires ValidConfig(c)
      modifies this
      ensures Admitted(Value(), admission) == LinkSpec.Admit(old(Value()), c, now, bytes, jitterSample, lossSample)
    {
      while finishes != [] && finishes[0] <= now
        invariant Prune(finishes, now) == Prune(old(finishes), now)
        invariant Value().(finishes := []) == old(Value()).(finishes := [])
        decreases |finishes|
      {
        finishes := finishes[1..];
      }
      if |finishes| >= c.queuePackets {
        queueDrops := SatAdd64(queueDrops, 1);
        return Full;
      }
      var start := Available(now);
      var serialization := 0;
      if c.bandwidth.Some? {
        serialization := SerializationUs(bytes, c.bandwidth.value);
        if serialization > U64_MAX {
          return Overflowed;
        }
      }
      var finish := start + serialization;
      if finish > U64_MAX {
        return Overflowed;
      }
      var jitter := jitterSample % (c.jitter * 2 + 1);
      var raw := finish + SatSub(c.delay + jitter, c.jitter);
      if raw > U64_MAX {
        return Overflowed;
      }
      var arrival := Max(raw, lastArrival);
      finishes := finishes + [finish];
      lastArrival := arrival;
      txPackets := SatAdd64(txPackets, 1);
      txBytes := SatAdd64(txBytes, bytes);
      return Scheduled(arrival, lossSample % PPM < c.lossPpm);
    }
  }
}
