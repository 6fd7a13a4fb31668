/**
 One direction of a cable: serialisation at the link rate, a bounded transmit queue, and a
 propagation delay with jitter whose arrivals are clamped to stay in order.
 */
module LinkSpec {
  import opened Prelude

  const PPM: nat := 1_000_000

  /** An absent rate serialises instantly. */
  datatype LinkConfig = LinkConfig(bandwidth: Option<nat>, delay: nat, jitter: nat, lossPpm: nat, queuePackets: nat)

  /** What validation of externally supplied policy accepts; a rate is never zero. */
  predicate ValidConfig(c: LinkConfig) {
    && c.lossPpm <= PPM && 1 <= c.queuePackets <= 1_000_000 && c.jitter <= (U64_MAX - 1) / 2
    && (c.bandwidth.Some? ==> c.bandwidth.value > 0)
  }

  datatype Runtime = Runtime(finishes: seq<nat>, lastArrival: nat, txPackets: nat, txBytes: nat, queueDrops: nat)

  datatype Admission = Full | Scheduled(arrival: nat, lost: bool) | Overflowed

  datatype Admitted = Admitted(runtime: Runtime, admission: Admission)

  const IDLE := Runtime([], 0, 0, 0, 0)

  function CeilDiv(a: nat, b: nat): nat
    requires b > 0
  {
    (a + b - 1) / b
  }

  /** Microseconds to put `bytes` on the wire, rounded up. */
  function SerializationUs(bytes: nat, rate: nat): nat
    requires rate > 0
  {
    CeilDiv(bytes * 8 * 1_000_000, rate)
  }

  /** Enough time for every bit, and less than a microsecond too much. */
  lemma SerializationIsTight(bytes: nat, rate: nat)
    requires rate > 0
    ensures bytes * 8_000_000 <= rate * SerializationUs(bytes, rate) < bytes * 8_000_000 + rate
  {
  }

  /** Frames still serialising or waiting after `now`. */
  function Prune(finishes: seq<nat>, now: nat): seq<nat> {
    if finishes != [] && finishes[0] <= now then Prune(finishes[1..], now) else finishes
  }

  function Queued(finishes: seq<nat>, now: nat): nat {
    if finishes == [] then 0 else (if finishes[0] > now then 1 else 0) + Queued(finishes[1..], now)
  }

  /** First moment a new frame can begin serialisation. */
  function AvailableAt(finishes: seq<nat>, now: nat): nat {
    if finishes == [] then now else Max(finishes[|finishes| - 1], now)
  }

  function Propagation(c: LinkConfig, jitterSample: nat): nat {
    SatSub(c.delay + jitterSample % (c.jitter * 2 + 1), c.jitter)
  }

  function Serialization(c: LinkConfig, bytes: nat): nat
    requires ValidConfig(c)
  {
    if c.bandwidth.None? then 0 else SerializationUs(bytes, c.bandwidth.value)
  }

  function Admit(r: Runtime, c: LinkConfig, now: nat, bytes: nat, jitterSample: nat, lossSample: nat): Admitted
    requires ValidConfig(c)
  {
    var waiting := r.(finishes := Prune(r.finishes, now));
    if |waiting.finishes| >= c.queuePackets then
      Admitted(waiting.(queueDrops := SatAdd64(r.queueDrops, 1)), Full)
    else
      var start := AvailableAt(waiting.finishes, now);
      var serialization := Serialization(c, bytes);
      var finish := start + serialization;
      var raw := finish + Propagation(c, jitterSample);
      if serialization > U64_MAX || finish > U64_MAX || raw > U64_MAX then Admitted(waiting, Overflowed)
      else
        var arrival := Max(raw, r.lastArrival);
        Admitted(Runtime(waiting.finishes + [finish], arrival, SatAdd64(r.txPackets, 1), SatAdd64(r.txBytes, bytes),
                         r.queueDrops),
                 Scheduled(arrival, lossSample % PPM < c.lossPpm))
  }

  /** An outage forgets reservations; counters survive. */
  function Reset(r: Runtime): Runtime {
    r.(finishes := [], lastArrival := 0)
  }

  ghost predicate Sorted(s: seq<nat>) {
    forall i, j :: 0 <= i < j < |s| ==> s[i] <= s[j]
  }

  lemma PruneKeepsLater(finishes: seq<nat>, now: nat)
    requires Sorted(finishes)
    ensures var p := Prune(finishes, now);
            && |p| <= |finishes| && p == finishes[|finishes| - |p|..]
            && (forall i :: 0 <= i < |finishes| - |p| ==> finishes[i] <= now)
            && (forall i :: 0 <= i < |p| ==> p[i] > now)
            && Sorted(p)
  {
  }

  /** The number of frames still pending is the length of the pruned queue. */
  lemma QueuedIsPruned(finishes: seq<nat>, now: nat)
    requires Sorted(finishes)
    ensures Queued(finishes, now) == |Prune(finishes, now)|
  {
  }

  // ------------------------------------------------------------------------- whole runs

  /** An admitted frame with its reserved interval and arrival. */
  datatype Frame = Frame(bytes: nat, start: nat, finish: nat, arrival: nat)

  /** A transmitter since its last outage, with every frame it has admitted. */
  datatype Line = Line(runtime: Runtime, frames: seq<Frame>, now: nat)

  datatype Offer = Offer(now: nat, bytes: nat, jitterSample: nat, lossSample: nat)

  function Step(l: Line, c: LinkConfig, o: Offer): Line
    requires ValidConfig(c)
  {
    if o.now < l.now then l
    else
      var a := Admit(l.runtime, c, o.now, o.bytes, o.jitterSample, o.lossSample);
      var start := AvailableAt(Prune(l.runtime.finishes, o.now), o.now);
      Line(a.runtime,
           if a.admission.Scheduled? then
             l.frames + [Frame(o.bytes, start, start + Serialization(c, o.bytes), a.admission.arrival)]
           else l.frames,
           o.now)
  }

  function Run(l: Line, c: LinkConfig, offers: seq<Offer>): Line
    requires ValidConfig(c)
    decreases |offers|
  {
    if offers == [] then l else Run(Step(l, c, offers[0]), c, offers[1..])
  }

  const FRESH := Line(IDLE, [], 0)

  ghost predicate FrameOk(c: LinkConfig, f: Frame)
    requires ValidConfig(c)
  {
    && f.finish == f.start + Serialization(c, f.bytes)
    && f.finish + SatSub(c.delay, c.jitter) <= f.arrival <= f.finish + c.delay + c.jitter
  }

  ghost predicate Consecutive(a: Frame, b: Frame) {
    a.finish <= b.start && a.arrival <= b.arrival
  }

  ghost predicate Lawful(c: LinkConfig, frames: seq<Frame>)
    requires ValidConfig(c)
  {
    && (forall i :: 0 <= i < |frames| ==> FrameOk(c, frames[i]))
    && (forall i, j :: 0 <= i < j < |frames| ==> Consecutive(frames[i], frames[j]))
  }

  /** `finishes` are the finishing times of the latest frames; all others have left by `now`. */
  ghost predicate Backlog(finishes: seq<nat>, frames: seq<Frame>, now: nat) {
    && |finishes| <= |frames|
    && (forall i :: |frames| - |finishes| <= i < |frames| ==> FinishAt(finishes, frames, i))
    && (forall i :: 0 <= i < |frames| - |finishes| ==> frames[i].finish <= now)
  }

  ghost predicate FinishAt(finishes: seq<nat>, frames: seq<Frame>, i: nat)
    requires |frames| - |finishes| <= i < |frames|
  {
    finishes[i - (|frames| - |finishes|)] == frames[i].finish
  }

  ghost predicate Invariant(l: Line, c: LinkConfig)
    requires ValidConfig(c)
  {
    && |l.runtime.finishes| <= c.queuePackets
    && Lawful(c, l.frames)
    && Backlog(l.runtime.finishes, l.frames, l.now)
    && l.runtime.lastArrival == (if l.frames == [] then 0 else l.frames[|l.frames| - 1].arrival)
  }

  lemma PropagationBounds(c: LinkConfig, sample: nat)
    requires ValidConfig(c)
    ensures SatSub(c.delay, c.jitter) <= Propagation(c, sample) <= c.delay + c.jitter
  {
  }

  lemma BacklogIsSorted(c: LinkConfig, finishes: seq<nat>, frames: seq<Frame>, now: nat)
    requires ValidConfig(c) && Lawful(c, frames) && Backlog(finishes, frames, now)
    ensures Sorted(finishes)
  {
    var n := |frames| - |finishes|;
    forall a, b | 0 <= a < b < |finishes| ensures finishes[a] <= finishes[b] {
      assert FinishAt(finishes, frames, n + a) && FinishAt(finishes, frames, n + b);
      assert Consecutive(frames[n + a], frames[n + b]) && FrameOk(c, frames[n + b]);
    }
  }

  lemma BacklogPruned(finishes: seq<nat>, frames: seq<Frame>, was: nat, now: nat)
    requires Backlog(finishes, frames, was) && was <= now && Sorted(finishes)
    ensures Backlog(Prune(finishes, now), frames, now)
  {
    PruneKeepsLater(finishes, now);
    var n := |frames| - |finishes|;
    var p := Prune(finishes, now);
    var m := |frames| - |p|;
    forall i | 0 <= i < m ensures frames[i].finish <= now {
      if i >= n {
        assert FinishAt(finishes, frames, i);
      }
    }
    forall i | m <= i < |frames| ensures FinishAt(p, frames, i) {
      assert FinishAt(finishes, frames, i);
      assert p[i - m] == finishes[|finishes| - |p| + (i - m)];
    }
  }

  /** A new frame starts after every earlier one has finished. */
  lemma StartsAfter(c: LinkConfig, finishes: seq<nat>, frames: seq<Frame>, now: nat, i: nat)
    requires ValidConfig(c) && Lawful(c, frames) && Backlog(finishes, frames, now) && i < |frames|
    ensures frames[i].finish <= AvailableAt(finishes, now)
  {
    var n := |frames| - |finishes|;
    if i >= n {
      var last := |frames| - 1;
      assert FinishAt(finishes, frames, last);
      if i < last {
        assert Consecutive(frames[i], frames[last]) && FrameOk(c, frames[last]);
      }
    }
  }

  /** Appending a frame that starts when the line is free, with the clamped arrival. */
  lemma AppendKeeps(c: LinkConfig, finishes: seq<nat>, frames: seq<Frame>, now: nat, f: Frame, raw: nat)
    requires ValidConfig(c) && Lawful(c, frames) && Backlog(finishes, frames, now)
    requires f.start == AvailableAt(finishes, now) && f.finish == f.start + Serialization(c, f.bytes)
    requires f.finish + SatSub(c.delay, c.jitter) <= raw <= f.finish + c.delay + c.jitter
    requires f.arrival == Max(raw, if frames == [] then 0 else frames[|frames| - 1].arrival)
    ensures Lawful(c, frames + [f]) && Backlog(finishes + [f.finish], frames + [f], now)
  {
    var k := |frames|;
    var all := frames + [f];
    forall i | 0 <= i < k ensures Consecutive(frames[i], f) {
      StartsAfter(c, finishes, frames, now, i);
      if i < k - 1 {
        assert Consecutive(frames[i], frames[k - 1]);
      }
    }
    if k > 0 {
      assert FrameOk(c, frames[k - 1]) && Consecutive(frames[k - 1], f);
    }
    assert FrameOk(c, f);
    forall i, j | 0 <= i < j < |all| ensures Consecutive(all[i], all[j]) {
      assert all[i] == frames[i];
    }
    forall i | |all| - (|finishes| + 1) <= i < |all| ensures FinishAt(finishes + [f.finish], all, i) {
      if i < k {
        assert FinishAt(finishes, frames, i);
      }
    }
  }

  lemma StepKeeps(l: Line, c: LinkConfig, o: Offer)
    requires ValidConfig(c) && Invariant(l, c)
    ensures Invariant(Step(l, c, o), c)
  {
    if o.now >= l.now {
      BacklogIsSorted(c, l.runtime.finishes, l.frames, l.now);
      BacklogPruned(l.runtime.finishes, l.frames, l.now, o.now);
      PruneShortens(l.runtime.finishes, o.now);
      if Admit(l.runtime, c, o.now, o.bytes, o.jitterSample, o.lossSample).admission.Scheduled? {
        AdmittedKeeps(l, c, o);
      }
    }
  }

  lemma PruneShortens(finishes: seq<nat>, now: nat)
    ensures |Prune(finishes, now)| <= |finishes|
  {
  }

  lemma AdmittedKeeps(l: Line, c: LinkConfig, o: Offer)
    requires ValidConfig(c) && Invariant(l, c) && l.now <= o.now
    requires Backlog(Prune(l.runtime.finishes, o.now), l.frames, o.now)
    requires Admit(l.runtime, c, o.now, o.bytes, o.jitterSample, o.lossSample).admission.Scheduled?
    ensures Invariant(Step(l, c, o), c)
  {
    var r := Step(l, c, o);
    var waiting := Prune(l.runtime.finishes, o.now);
    var f := r.frames[|l.frames|];
    assert r.frames == l.frames + [f] && r.runtime.finishes == waiting + [f.finish];
    PropagationBounds(c, o.jitterSample);
    AppendKeeps(c, waiting, l.frames, o.now, f, f.finish + Propagation(c, o.jitterSample));
  }

  lemma {:induction false} RunKeeps(l: Line, c: LinkConfig, offers: seq<Offer>)
    requires ValidConfig(c) && Invariant(l, c)
    ensures Invariant(Run(l, c, offers), c)
    decreases |offers|
  {
    if offers != [] {
      StepKeeps(l, c, offers[0]);
      RunKeeps(Step(l, c, offers[0]), c, offers[1..]);
    }
  }

  // --------------------------------------------------------------------------- theorems

  ghost function TotalBytes(frames: seq<Frame>): nat {
    if frames == [] then 0 else TotalBytes(frames[..|frames| - 1]) + frames[|frames| - 1].bytes
  }

  lemma RateAdds(rate: nat, bytes: nat, before: nat, gap: nat, own: nat)
    requires bytes * 8_000_000 <= rate * before
    ensures bytes * 8_000_000 + rate * own <= rate * (before + gap + own)
  {
  }

  lemma {:induction false} RateOver(c: LinkConfig, frames: seq<Frame>, i: nat, j: nat, rate: nat)
    requires ValidConfig(c) && c.bandwidth == Some(rate) && i <= j < |frames|
    requires Lawful(c, frames)
    ensures frames[i].start <= frames[j].finish
    ensures TotalBytes(frames[i..j + 1]) * 8_000_000 <= rate * (frames[j].finish - frames[i].start)
    decreases j
  {
    var last := frames[j];
    assert FrameOk(c, last);
    SerializationIsTight(last.bytes, rate);
    var own := last.finish - last.start;
    assert own == SerializationUs(last.bytes, rate);
    assert frames[i..j + 1][..j - i] == frames[i..j];
    if i == j {
      assert TotalBytes(frames[i..j]) == 0;
    } else {
      RateOver(c, frames, i, j - 1, rate);
      var prior := frames[j - 1];
      assert Consecutive(prior, last);
      RateAdds(rate, TotalBytes(frames[i..j]), prior.finish - frames[i].start, last.start - prior.finish, own);
    }
  }

  /** Line rate: any stretch of consecutive frames fits the rate between its start and its finish. */
  lemma NeverAboveLineRate(c: LinkConfig, offers: seq<Offer>, i: nat, j: nat, rate: nat)
    requires ValidConfig(c) && c.bandwidth == Some(rate)
    requires i <= j < |Run(FRESH, c, offers).frames|
    ensures var frames := Run(FRESH, c, offers).frames;
            TotalBytes(frames[i..j + 1]) * 8_000_000 <= rate * (frames[j].finish - frames[i].start)
  {
    RunKeeps(FRESH, c, offers);
    RateOver(c, Run(FRESH, c, offers).frames, i, j, rate);
  }

  /**
   Latency: despite the clamp that keeps arrivals in order, every frame arrives within the
   jitter of its own finish plus delay; arrivals never go back; the queue bound holds.
   */
  lemma LatencyAndOrder(c: LinkConfig, offers: seq<Offer>)
    requires ValidConfig(c)
    ensures var l := Run(FRESH, c, offers);
            && (forall k :: 0 <= k < |l.frames| ==>
                  l.frames[k].finish + SatSub(c.delay, c.jitter) <= l.frames[k].arrival
                  <= l.frames[k].finish + c.delay + c.jitter)
            && (forall i, k :: 0 <= i < k < |l.frames| ==> l.frames[i].arrival <= l.frames[k].arrival)
            && Queued(l.runtime.finishes, l.now) <= c.queuePackets
  {
    RunKeeps(FRESH, c, offers);
    var l := Run(FRESH, c, offers);
    forall k | 0 <= k < |l.frames|
      ensures l.frames[k].finish + SatSub(c.delay, c.jitter) <= l.frames[k].arrival
              <= l.frames[k].finish + c.delay + c.jitter
    {
      assert FrameOk(c, l.frames[k]);
    }
    forall i, k | 0 <= i < k < |l.frames| ensures l.frames[i].arrival <= l.frames[k].arrival {
      assert Consecutive(l.frames[i], l.frames[k]);
    }
    QueuedAtMost(l.runtime.finishes, l.now);
  }

  lemma QueuedAtMost(finishes: seq<nat>, now: nat)
    ensures Queued(finishes, now) <= |finishes|
  {
  }
}
