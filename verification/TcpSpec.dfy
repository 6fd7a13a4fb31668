/**
 One bounded TCP stream with a single outstanding segment (RFC 9293, sections 3.5, 3.6 and
 3.10.7.4), as functions on the value of a connection. Class `TcpConnection` updates the
 same fields in place; module `TcpNetwork` joins two of them.
 */
module TcpSpec {
  import opened Prelude

  const RECEIVE_LIMIT: nat := 65535
  const MAX_PAYLOAD: nat := 1200
  const IDLE_US: nat := 300_000_000
  const TIME_WAIT_US: nat := 120_000_000
  const FIRST_RESEND_US: nat := 1_000_000
  const MAX_RETRIES: nat := 5

  datatype TcpState = Closed | SynSent | SynReceived | Established | FinWait | CloseWait | LastAck | TimeWait

  datatype TcpError = State | Busy | Capacity

  datatype Flags = Flags(fin: bool, syn: bool, rst: bool, psh: bool, ack: bool, other: bool)

  const SYN := Flags(false, true, false, false, false, false)
  const SYN_ACK := Flags(false, true, false, false, true, false)
  const ACK := Flags(false, false, false, false, true, false)
  const ACK_PSH := Flags(false, false, false, true, true, false)
  const ACK_FIN := Flags(true, false, false, false, true, false)

  datatype Segment = Segment(sequence: nat, acknowledgment: nat, flags: Flags, window: nat, payload: seq<bv8>)

  datatype Outstanding = Outstanding(segment: Segment, deadline: nat, retries: nat)

  datatype Connection = Connection(
    state: TcpState,
    retransmissions: nat,
    sendNext: nat,
    receiveNext: nat,
    peerWindow: nat,
    received: seq<bv8>,
    outstanding: Option<Outstanding>,
    lastActivity: nat,
    idleTimeout: Option<nat>,
    timeWaitUntil: Option<nat>,
    peerClosed: bool,
    passive: bool)

  datatype Emitted = Emitted(connection: Connection, segment: Segment)
  datatype Handled = Handled(connection: Connection, reply: Option<Segment>)
  datatype Written = Accepted(emitted: Emitted) | Refused(error: TcpError)
  datatype Ticked = Expired | Kept(connection: Connection, resent: Option<Segment>)

  /** Sequence space consumed by payload and the SYN and FIN flags. */
  function SequenceLen(s: Segment): nat {
    |s.payload| + (if s.flags.syn then 1 else 0) + (if s.flags.fin then 1 else 0)
  }

  function NewConnection(sequence: nat, now: nat): Connection {
    Connection(Closed, 0, sequence, 0, 65535, [], None, now, Some(IDLE_US), None, false, false)
  }

  function SegmentOf(c: Connection, flags: Flags, payload: seq<bv8>): Segment {
    Segment(c.sendNext, c.receiveNext, flags, SatSub(RECEIVE_LIMIT, |c.received|), payload)
  }

  function Send(c: Connection, flags: Flags, payload: seq<bv8>, now: nat): Emitted {
    var s := SegmentOf(c, flags, payload);
    Emitted(c.(sendNext := Wrap32(c.sendNext + SequenceLen(s)),
               outstanding := if SequenceLen(s) != 0 then Some(Outstanding(s, SatAdd64(now, FIRST_RESEND_US), 0))
                              else c.outstanding,
               lastActivity := now),
            s)
  }

  function EnterTimeWait(c: Connection, now: nat): Connection {
    c.(state := TimeWait, timeWaitUntil := Some(SatAdd64(now, TIME_WAIT_US)))
  }

  // ------------------------------------------------------------------------------ opening

  function Connect(sequence: nat, now: nat): Emitted {
    Send(NewConnection(sequence, now).(state := SynSent), SYN, [], now)
  }

  /** A listener's connection for the SYN `s`. */
  function Accept(sequence: nat, s: Segment, now: nat): Emitted {
    Send(NewConnection(sequence, now).(state := SynReceived, passive := true,
           receiveNext := Wrap32(s.sequence + 1), peerWindow := s.window), SYN_ACK, [], now)
  }

  // -------------------------------------------------------------------------- application

  function TcpSend(c: Connection, payload: seq<bv8>, now: nat): Written {
    if payload == [] || |payload| > MAX_PAYLOAD then Refused(Capacity)
    else if c.state != Established && c.state != CloseWait then Refused(State)
    else if c.outstanding.Some? || |payload| > c.peerWindow then Refused(Busy)
    else Accepted(Send(c, ACK_PSH, payload, now))
  }

  function TcpClose(c: Connection, now: nat): Written {
    if c.outstanding.Some? then Refused(Busy)
    else if c.state == Established then Accepted(Send(c.(state := FinWait), ACK_FIN, [], now))
    else if c.state == CloseWait then Accepted(Send(c.(state := LastAck), ACK_FIN, [], now))
    else Refused(State)
  }

  /** Draining the buffer announces the reopened window. */
  function TcpRead(c: Connection): Emitted {
    Emitted(c.(received := []), SegmentOf(c.(received := []), ACK, []))
  }

  function SendCapacity(c: Connection): nat {
    if (c.state != Established && c.state != CloseWait) || c.outstanding.Some? then 0
    else Min(MAX_PAYLOAD, c.peerWindow)
  }

  // ---------------------------------------------------------------------------- receiving

  function ReceiveReset(c: Connection, s: Segment): Connection {
    if (if c.state == SynSent then s.flags.ack && s.acknowledgment == c.sendNext else s.sequence == c.receiveNext)
    then c.(state := Closed, outstanding := None)
    else c
  }

  function ReceiveTimeWait(c: Connection, s: Segment, now: nat): Handled {
    Handled(if s.flags.fin && Wrap32(s.sequence + SequenceLen(s)) == c.receiveNext then EnterTimeWait(c, now) else c,
            if SequenceLen(s) != 0 then Some(SegmentOf(c, ACK, [])) else None)
  }

  function ReceiveSynSent(c: Connection, s: Segment, now: nat): Handled {
    if s.flags.syn && s.flags.ack && s.acknowledgment == c.sendNext then
      var open := c.(receiveNext := Wrap32(s.sequence + 1), peerWindow := s.window, outstanding := None,
                     state := Established, lastActivity := now);
      Handled(open, Some(SegmentOf(open, ACK, [])))
    else Handled(c, None)
  }

  /** The effect of an acknowledgment of everything sent. */
  function Acknowledged(c: Connection, now: nat): Connection {
    var clear := c.(outstanding := None);
    if c.state == SynReceived then clear.(state := Established)
    else if c.state == LastAck then clear.(state := Closed)
    else if c.state == FinWait && c.peerClosed then EnterTimeWait(clear, now)
    else clear
  }

  /** Take the payload and FIN of an in-order segment. */
  function TakeText(c: Connection, s: Segment, now: nat): Handled {
    var data := c.(receiveNext := Wrap32(c.receiveNext + |s.payload|), received := c.received + s.payload);
    var done :=
      if !s.flags.fin then data
      else
        var closed := data.(receiveNext := Wrap32(data.receiveNext + 1), peerClosed := true);
        if c.state != FinWait then closed.(state := CloseWait)
        else if c.outstanding.None? then EnterTimeWait(closed, now)
        else closed;
    Handled(done, if s.payload != [] || s.flags.fin then Some(SegmentOf(done, ACK, [])) else None)
  }

  /** An in-order segment carrying ACK. */
  function ReceiveInOrder(c: Connection, s: Segment, now: nat): Handled {
    var all := s.acknowledgment == c.sendNext;
    if !all && c.state == SynReceived then Handled(c, None)
    else if all && c.state == LastAck then Handled(Acknowledged(c, now), None)
    else
      var a := (if all then Acknowledged(c, now) else c).(lastActivity := now, peerWindow := s.window);
      if a.peerClosed then Handled(a, None)
      else if |a.received| + |s.payload| > RECEIVE_LIMIT then Handled(a, Some(SegmentOf(a, ACK, [])))
      else TakeText(a, s, now)
  }

  function Receive(c: Connection, s: Segment, now: nat): Handled {
    if c.state == Closed then Handled(c, None)
    else if s.flags.rst then Handled(ReceiveReset(c, s), None)
    else if c.state == TimeWait then ReceiveTimeWait(c, s, now)
    else if c.state == SynSent then ReceiveSynSent(c, s, now)
    else if c.state == SynReceived && s.flags.syn && Wrap32(s.sequence + 1) == c.receiveNext then
      Handled(c, if c.outstanding.Some? then Some(c.outstanding.value.segment) else None)
    else if s.sequence != c.receiveNext then Handled(c, Some(SegmentOf(c, ACK, [])))
    else if !s.flags.ack then Handled(c, None)
    else ReceiveInOrder(c, s, now)
  }

  // ------------------------------------------------------------------------------- timers

  predicate IsExpired(c: Connection, now: nat) {
    || c.state == Closed
    || (c.idleTimeout.Some? && SatSub(now, c.lastActivity) >= c.idleTimeout.value)
    || (c.timeWaitUntil.Some? && c.timeWaitUntil.value <= now)
  }

  function Resend(c: Connection, now: nat): Handled {
    if c.outstanding.None? || c.outstanding.value.deadline > now then Handled(c, None)
    else
      var o := c.outstanding.value;
      if o.retries >= MAX_RETRIES then Handled(c.(state := Closed), None)
      else
        var again := o.(retries := o.retries + 1, deadline := SatAdd64(now, FIRST_RESEND_US * Pow2(o.retries + 1)));
        Handled(c.(outstanding := Some(again), retransmissions := c.retransmissions + 1), Some(o.segment))
  }

  function Tick(c: Connection, now: nat): Ticked {
    if IsExpired(c, now) then Expired
    else Kept(Resend(c, now).connection, Resend(c, now).reply)
  }

  // ------------------------------------------------------------ what every operation keeps

  /** The peer's FIN, the state and the retransmission slot agree. */
  predicate Consistent(c: Connection) {
    && (c.state == CloseWait || c.state == LastAck || c.state == TimeWait ==> c.peerClosed)
    && (c.state == SynSent || c.state == SynReceived || c.state == Established ==> !c.peerClosed)
    && (c.state == FinWait && c.peerClosed ==> c.outstanding.Some?)
    && (c.state == TimeWait ==> c.outstanding.None?)
    && (c.state == TimeWait ==> c.timeWaitUntil.Some?)
    && (c.outstanding.Some? ==> SequenceLen(c.outstanding.value.segment) > 0)
    && (c.outstanding.Some? ==> c.outstanding.value.retries <= MAX_RETRIES)
    && |c.received| <= RECEIVE_LIMIT
  }

  /** Position in the lifecycle; a connection only moves up. */
  function Rank(s: TcpState): nat {
    match s
    case SynSent => 1
    case SynReceived => 1
    case Established => 2
    case FinWait => 3
    case CloseWait => 3
    case LastAck => 4
    case TimeWait => 4
    case Closed => 5
  }

  lemma TakeTextMovesForward(c: Connection, s: Segment, now: nat)
    requires Consistent(c) && !c.peerClosed && |c.received| + |s.payload| <= RECEIVE_LIMIT
    requires c.state == SynReceived || c.state == Established || c.state == FinWait
    ensures var d := TakeText(c, s, now).connection;
            Consistent(d) && Rank(c.state) <= Rank(d.state) && |c.received| <= |d.received|
  {
  }

  lemma InOrderMovesForward(c: Connection, s: Segment, now: nat)
    requires Consistent(c) && c.state != Closed && c.state != TimeWait && c.state != SynSent
    ensures var d := ReceiveInOrder(c, s, now).connection;
            Consistent(d) && Rank(c.state) <= Rank(d.state) && |c.received| <= |d.received|
  {
    var all := s.acknowledgment == c.sendNext;
    var a := (if all then Acknowledged(c, now) else c).(lastActivity := now, peerWindow := s.window);
    if !a.peerClosed && |a.received| + |s.payload| <= RECEIVE_LIMIT && a.state != Closed {
      TakeTextMovesForward(a, s, now);
    }
  }

  /** Whatever segment arrives, in whatever state, the connection stays consistent and never moves back. */
  lemma ReceiveMovesForward(c: Connection, s: Segment, now: nat)
    requires Consistent(c)
    ensures var d := Receive(c, s, now).connection;
            Consistent(d) && Rank(c.state) <= Rank(d.state) && |c.received| <= |d.received|
  {
    if c.state != Closed && c.state != TimeWait && c.state != SynSent {
      InOrderMovesForward(c, s, now);
    }
  }

  lemma TickMovesForward(c: Connection, now: nat)
    requires Consistent(c)
    ensures var t := Tick(c, now);
            t.Kept? ==> Consistent(t.connection) && Rank(c.state) <= Rank(t.connection.state)
  {
  }

  lemma OperationsMoveForward(c: Connection, payload: seq<bv8>, now: nat)
    requires Consistent(c)
    ensures var w := TcpSend(c, payload, now);
            w.Accepted? ==> Consistent(w.emitted.connection) && w.emitted.connection.state == c.state
    ensures var w := TcpClose(c, now);
            w.Accepted? ==> Consistent(w.emitted.connection) && Rank(c.state) < Rank(w.emitted.connection.state)
    ensures Consistent(TcpRead(c).connection) && TcpRead(c).connection.state == c.state
    ensures var t := Tick(c, now);
            t.Kept? ==> Consistent(t.connection) && Rank(c.state) <= Rank(t.connection.state)
  {
  }

  lemma ConnectIsConsistent(sequence: nat, now: nat)
    ensures Consistent(Connect(sequence, now).connection)
  {
  }

  lemma AcceptIsConsistent(sequence: nat, s: Segment, now: nat)
    ensures Consistent(Accept(sequence, s, now).connection)
  {
  }

  /** The capacity offered to applications is exactly what a write accepts. */
  lemma CapacityIsExact(c: Connection, payload: seq<bv8>, now: nat)
    requires payload != []
    ensures TcpSend(c, payload, now).Accepted? <==> |payload| <= SendCapacity(c)
  {
  }

  // --------------------------------------------------------------------- retransmissions

  /** What a sequence of ticks makes of a connection on which nothing else happens, and when it resent. */
  datatype Retried = Retried(connection: Connection, resends: seq<nat>, removed: bool)

  function Retry(c: Connection, ticks: seq<nat>): Retried
    decreases |ticks|
  {
    if ticks == [] then Retried(c, [], false)
    else
      match Tick(c, ticks[0])
      case Expired => Retried(c, [], true)
      case Kept(d, s) =>
        var r := Retry(d, ticks[1..]);
        r.(resends := (if s.Some? then [ticks[0]] else []) + r.resends)
  }

  /** Still waiting, closed for want of an acknowledgment, or removed from the table. */
  datatype Fate = Waiting | GivenUp | Removed

  ghost function FateOf(r: Retried): Fate {
    if r.removed then Removed else if r.connection.state == Closed then GivenUp else Waiting
  }

  ghost predicate InOrder(start: nat, ticks: seq<nat>) {
    && (forall i :: 0 <= i < |ticks| ==> start <= ticks[i])
    && (forall i, j :: 0 <= i < j < |ticks| ==> ticks[i] <= ticks[j])
  }

  /** The end of the wait that follows transmission number `n`, made at `sent`: 2^n seconds. */
  ghost function Due(sent: nat, n: nat): nat {
    SatAdd64(sent, FIRST_RESEND_US * Pow2(n))
  }

  /** `time` is the first of the ticks after `sent` at which transmission number `n` has waited long enough. */
  ghost predicate FirstDue(sent: nat, n: nat, ticks: seq<nat>, time: nat) {
    time in ticks && Due(sent, n) <= time && forall t :: t in ticks && sent < t < time ==> t < Due(sent, n)
  }

  /** Number `n` is the transmission made at `sent`; `resends` are the times of all that follow it. */
  ghost predicate BacksOff(sent: nat, n: nat, ticks: seq<nat>, fate: Fate, resends: seq<nat>)
    decreases |resends|
  {
    if resends != [] then
      n < MAX_RETRIES && FirstDue(sent, n, ticks, resends[0]) && BacksOff(resends[0], n + 1, ticks, fate, resends[1..])
    else
      match fate
      case Removed => true
      case Waiting => forall t :: t in ticks && sent < t ==> t < Due(sent, n)
      case GivenUp => n == MAX_RETRIES && exists t :: t in ticks && Due(sent, n) <= t
  }

  ghost predicate AwaitsAck(c: Connection, sent: nat, n: nat) {
    && c.state != Closed && c.outstanding.Some? && n <= MAX_RETRIES
    && c.outstanding.value.retries == n && c.outstanding.value.deadline == Due(sent, n)
  }

  /** Sending text, a SYN or a FIN starts the first wait. */
  lemma SendAwaitsAck(c: Connection, flags: Flags, payload: seq<bv8>, now: nat)
    requires c.state != Closed && SequenceLen(SegmentOf(c, flags, payload)) > 0
    ensures AwaitsAck(Send(c, flags, payload, now).connection, now, 0)
  {
  }

  lemma InOrderRest(start: nat, ticks: seq<nat>)
    requires InOrder(start, ticks) && ticks != []
    ensures start <= ticks[0] && InOrder(start, ticks[1..]) && InOrder(ticks[0], ticks[1..])
    ensures forall t :: t in ticks ==> t == ticks[0] || t in ticks[1..]
    ensures forall t :: t in ticks[1..] ==> t in ticks && ticks[0] <= t
  {
  }

  /** A tick before the end of the wait changes nothing. */
  lemma {:induction false} EarlyTick(sent: nat, n: nat, ticks: seq<nat>, fate: Fate, resends: seq<nat>)
    requires InOrder(0, ticks) && ticks != [] && (ticks[0] <= sent || ticks[0] < Due(sent, n))
    requires BacksOff(sent, n, ticks[1..], fate, resends)
    ensures BacksOff(sent, n, ticks, fate, resends)
    decreases |resends|
  {
    InOrderRest(0, ticks);
    if resends != [] {
      EarlyTick(resends[0], n + 1, ticks, fate, resends[1..]);
    }
  }

  /** After the fifth retransmission, only the end of its wait closes the connection. */
  lemma {:induction false} BackOffBound(sent: nat, n: nat, ticks: seq<nat>, fate: Fate, resends: seq<nat>)
    requires BacksOff(sent, n, ticks, fate, resends) && n <= MAX_RETRIES
    ensures n + |resends| <= MAX_RETRIES
    ensures fate == GivenUp ==> n + |resends| == MAX_RETRIES
    decreases |resends|
  {
    if resends != [] {
      BackOffBound(resends[0], n + 1, ticks, fate, resends[1..]);
    }
  }

  lemma TickOutcome(c: Connection, sent: nat, n: nat, now: nat)
    requires AwaitsAck(c, sent, n) && Tick(c, now).Kept?
    ensures var t := Tick(c, now);
            if now < Due(sent, n) then t == Kept(c, None)
            else if n < MAX_RETRIES then t.resent.Some? && AwaitsAck(t.connection, now, n + 1)
            else t.resent.None? && t.connection.state == Closed
  {
  }

  lemma ClosedIsOver(c: Connection, ticks: seq<nat>)
    requires c.state == Closed
    ensures Retry(c, ticks) == Retried(c, [], ticks != [])
  {
  }

  /** A tick that finds the wait over is the next transmission. */
  lemma DueTick(sent: nat, n: nat, ticks: seq<nat>, fate: Fate, resends: seq<nat>)
    requires InOrder(sent, ticks) && ticks != [] && Due(sent, n) <= ticks[0] && n < MAX_RETRIES
    requires BacksOff(ticks[0], n + 1, ticks, fate, resends)
    ensures BacksOff(sent, n, ticks, fate, [ticks[0]] + resends)
  {
    InOrderRest(sent, ticks);
    assert ([ticks[0]] + resends)[1..] == resends;
    assert FirstDue(sent, n, ticks, ticks[0]);
  }

  lemma RetryStep(c: Connection, ticks: seq<nat>, d: Connection, s: Option<Segment>)
    requires ticks != [] && Tick(c, ticks[0]) == Kept(d, s)
    ensures var r, q := Retry(d, ticks[1..]), Retry(c, ticks);
            FateOf(q) == FateOf(r) && q.resends == if s.Some? then [ticks[0]] + r.resends else r.resends
  {
  }

  lemma {:induction false} RetriesBackOff(c: Connection, sent: nat, n: nat, ticks: seq<nat>)
    requires AwaitsAck(c, sent, n) && InOrder(sent, ticks)
    ensures BacksOff(sent, n, ticks, FateOf(Retry(c, ticks)), Retry(c, ticks).resends)
    decreases |ticks|
  {
    if ticks != [] && Tick(c, ticks[0]).Kept? {
      var k := Tick(c, ticks[0]);
      var r := Retry(k.connection, ticks[1..]);
      TickOutcome(c, sent, n, ticks[0]);
      RetryStep(c, ticks, k.connection, k.resent);
      InOrderRest(sent, ticks);
      if ticks[0] < Due(sent, n) {
        RetriesBackOff(c, sent, n, ticks[1..]);
        EarlyTick(sent, n, ticks, FateOf(r), r.resends);
      } else if n < MAX_RETRIES {
        RetriesBackOff(k.connection, ticks[0], n + 1, ticks[1..]);
        EarlyTick(ticks[0], n + 1, ticks, FateOf(r), r.resends);
        DueTick(sent, n, ticks, FateOf(r), r.resends);
      } else {
        ClosedIsOver(k.connection, ticks[1..]);
        assert ticks[0] in ticks;
      }
    }
  }

  /**
   A segment is retransmitted at most five times, each time at the first tick that finds its
   wait over; the waits are 1, 2, 4, 8, 16 and 32 seconds, and only a tick after the last of
   them closes the connection.
   */
  lemma ResendsAreBounded(c: Connection, flags: Flags, payload: seq<bv8>, sent: nat, ticks: seq<nat>)
    requires c.state != Closed && SequenceLen(SegmentOf(c, flags, payload)) > 0 && InOrder(sent, ticks)
    ensures var r := Retry(Send(c, flags, payload, sent).connection, ticks);
            && |r.resends| <= MAX_RETRIES
            && (FateOf(r) == GivenUp ==> |r.resends| == MAX_RETRIES)
            && BacksOff(sent, 0, ticks, FateOf(r), r.resends)
  {
    var d := Send(c, flags, payload, sent).connection;
    SendAwaitsAck(c, flags, payload, sent);
    RetriesBackOff(d, sent, 0, ticks);
    BackOffBound(sent, 0, ticks, FateOf(Retry(d, ticks)), Retry(d, ticks).resends);
  }

  // --------------------------------------------------------------------- taking text

  /**
   An in-order segment with ACK that fits the buffer is taken whole by a side whose peer has not
   closed: text and FIN are added, the expected number moves past them, they are acknowledged at
   once, and an acknowledgment of everything sent empties the retransmission slot.
   */
  lemma TextIsTaken(c: Connection, s: Segment, now: nat)
    requires Consistent(c) && (c.state == Established || c.state == FinWait) && !c.peerClosed
    requires s.flags.ack && !s.flags.syn && !s.flags.rst && s.sequence == c.receiveNext
    requires |c.received| + |s.payload| <= 65535
    ensures var r := Receive(c, s, now); var d := r.connection;
            && d.received == c.received + s.payload
            && d.receiveNext == Wrap32(c.receiveNext + SequenceLen(s))
            && d.peerClosed == s.flags.fin && d.peerWindow == s.window && d.lastActivity == now
            && d.sendNext == c.sendNext && d.idleTimeout == c.idleTimeout
            && (d.state != TimeWait ==> d.timeWaitUntil == c.timeWaitUntil)
            && d.outstanding == (if s.acknowledgment == c.sendNext then None else c.outstanding)
            && d.state == (if !s.flags.fin then c.state
                           else if c.state == Established then CloseWait
                           else if d.outstanding.None? then TimeWait else FinWait)
            && r.reply == (if s.payload == [] && !s.flags.fin then None
                           else Some(Segment(d.sendNext, d.receiveNext, ACK, 65535 - |d.received|, [])))
  {
    WrapStep(c.receiveNext + |s.payload|);
  }

  /** A segment that does not fit is acknowledged as not taken; its acknowledgment still counts. */
  lemma TextMustFit(c: Connection, s: Segment, now: nat)
    requires Consistent(c) && (c.state == Established || c.state == FinWait) && !c.peerClosed
    requires s.flags.ack && !s.flags.rst && s.sequence == c.receiveNext
    requires |c.received| + |s.payload| > 65535
    ensures var r := Receive(c, s, now); var d := r.connection;
            && d.received == c.received && d.receiveNext == c.receiveNext && !d.peerClosed && d.state == c.state
            && d.outstanding == (if s.acknowledgment == c.sendNext then None else c.outstanding)
            && r.reply == Some(Segment(d.sendNext, d.receiveNext, ACK, 65535 - |d.received|, []))
  {
  }
}
