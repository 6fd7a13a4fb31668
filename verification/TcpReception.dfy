/**
 The branches of one connection that carry no new text: opening, resets, repeats, the end of the
 connection, and what an application is refused, each stated from the values before and after.
 */
module TcpReception {
  import opened Prelude
  import opened TcpSpec

  /** A bare acknowledgment of everything received, with the room that is left. */
  function AckNow(c: Connection): Segment {
    Segment(c.sendNext, c.receiveNext, ACK, Max(0, 65535 - |c.received|), [])
  }

  predicate Synchronised(c: Connection) {
    c.state == Established || c.state == FinWait || c.state == CloseWait || c.state == LastAck
  }

  // ------------------------------------------------------------------------------ opening

  /** An active opener sends a SYN and waits a second for the answer; the other side answers with SYN and ACK. */
  lemma OpensExactly(sequence: nat, peer: Segment, now: nat)
    requires sequence < 0x1_0000_0000
    ensures var o, p := Connect(sequence, now), Accept(sequence, peer, now);
            && o.segment == Segment(sequence, 0, SYN, 65535, [])
            && o.connection == Connection(SynSent, 0, (sequence + 1) % 0x1_0000_0000, 0, 65535, [],
                                          Some(Outstanding(o.segment, SatAdd64(now, 1_000_000), 0)), now,
                                          Some(300_000_000), None, false, false)
            && p.segment == Segment(sequence, (peer.sequence + 1) % 0x1_0000_0000, SYN_ACK, 65535, [])
            && p.connection == Connection(SynReceived, 0, (sequence + 1) % 0x1_0000_0000,
                                          (peer.sequence + 1) % 0x1_0000_0000, peer.window, [],
                                          Some(Outstanding(p.segment, SatAdd64(now, 1_000_000), 0)), now,
                                          Some(300_000_000), None, false, true)
  {
  }

  /** An opener is connected exactly by a SYN that acknowledges its own; anything else is ignored. */
  lemma AnswerOpens(c: Connection, s: Segment, now: nat)
    requires c.state == SynSent && !s.flags.rst
    ensures var r := Receive(c, s, now);
            if s.flags.syn && s.flags.ack && s.acknowledgment == c.sendNext then
              && r.connection == c.(state := Established, receiveNext := (s.sequence + 1) % 0x1_0000_0000,
                                    peerWindow := s.window, outstanding := None, lastActivity := now)
              && r.reply == Some(AckNow(r.connection))
            else r == Handled(c, None)
  {
  }

  /**
   A listener's connection repeats its answer to a repeated SYN, and is open exactly from the
   acknowledgment of its SYN, which is then received as on an open connection.
   */
  lemma AckOpens(c: Connection, s: Segment, now: nat)
    requires Consistent(c) && c.state == SynReceived && !s.flags.rst
    ensures var r := Receive(c, s, now);
            if s.flags.syn && (s.sequence + 1) % 0x1_0000_0000 == c.receiveNext then
              r.connection == c && r.reply == if c.outstanding.Some? then Some(c.outstanding.value.segment) else None
            else if s.sequence == c.receiveNext && s.flags.ack && s.acknowledgment == c.sendNext then
              r == Receive(c.(state := Established), s, now)
            else r == Handled(c, if s.sequence == c.receiveNext then None else Some(AckNow(c)))
  {
  }

  // ------------------------------------------------------------------- nothing new arrives

  /** A reset closes exactly when it is in sequence, or acknowledges the SYN just sent; it is never answered. */
  lemma ResetExactly(c: Connection, s: Segment, now: nat)
    requires s.flags.rst
    ensures var r := Receive(c, s, now);
            var valid := if c.state == SynSent then s.flags.ack && s.acknowledgment == c.sendNext
                         else s.sequence == c.receiveNext;
            && r.reply == None
            && r.connection == if valid && c.state != Closed then c.(state := Closed, outstanding := None) else c
  {
  }

  /** A closed connection takes nothing and says nothing. */
  lemma ClosedIsSilent(c: Connection, s: Segment, now: nat)
    requires c.state == Closed
    ensures Receive(c, s, now) == Handled(c, None)
  {
  }

  /** Out of sequence, or without ACK, a segment changes nothing; only the former is answered. */
  lemma OutOfSequence(c: Connection, s: Segment, now: nat)
    requires Synchronised(c) && !s.flags.rst && (s.sequence != c.receiveNext || !s.flags.ack)
    ensures Receive(c, s, now) == Handled(c, if s.sequence != c.receiveNext then Some(AckNow(c)) else None)
  {
  }

  /** Once its peer has closed, a side takes no more text and answers nothing: only acknowledgments count. */
  lemma AfterPeerClosed(c: Connection, s: Segment, now: nat)
    requires Consistent(c) && Synchronised(c) && c.peerClosed
    requires !s.flags.rst && s.flags.ack && s.sequence == c.receiveNext
    ensures var r, all := Receive(c, s, now), s.acknowledgment == c.sendNext; var d := r.connection;
            && r.reply == None && d.received == c.received && d.receiveNext == c.receiveNext && d.peerClosed
            && d.sendNext == c.sendNext && d.outstanding == (if all then None else c.outstanding)
            && d.state == (if !all then c.state
                           else match c.state
                                case LastAck => Closed
                                case FinWait => TimeWait
                                case other => other)
            && (d.state == TimeWait ==> d.timeWaitUntil == Some(SatAdd64(now, 120_000_000)))
            && (if d.state == Closed then d == c.(state := Closed, outstanding := None)
                else d.peerWindow == s.window && d.lastActivity == now)
  {
  }

  /** The 120 seconds of TimeWait start with it, and again exactly when the peer repeats its FIN. */
  lemma TimeWaitExactly(c: Connection, s: Segment, now: nat)
    requires c.state == TimeWait && !s.flags.rst
    ensures var r := Receive(c, s, now);
            var length := |s.payload| + (if s.flags.syn then 1 else 0) + (if s.flags.fin then 1 else 0);
            && r.connection == (if s.flags.fin && (s.sequence + length) % 0x1_0000_0000 == c.receiveNext
                                then c.(timeWaitUntil := Some(SatAdd64(now, 120_000_000))) else c)
            && r.reply == if length > 0 then Some(AckNow(c)) else None
  {
  }

  lemma TimeWaitStarts(c: Connection, s: Segment, now: nat)
    requires Consistent(c) && c.state != TimeWait && Receive(c, s, now).connection.state == TimeWait
    ensures Receive(c, s, now).connection.timeWaitUntil == Some(SatAdd64(now, 120_000_000))
  {
  }

  // -------------------------------------------------------------------------- application

  /** What a write makes of the connection: the segment takes the slot and its numbers. */
  ghost predicate Written(c: Connection, d: Connection, s: Segment, now: nat) {
    && s.sequence == c.sendNext && s.acknowledgment == c.receiveNext && s.window == Max(0, 65535 - |c.received|)
    && d == c.(state := d.state, outstanding := Some(Outstanding(s, SatAdd64(now, 1_000_000), 0)), lastActivity := now,
               sendNext := (c.sendNext + |s.payload| + (if s.flags.fin then 1 else 0)) % 0x1_0000_0000)
  }

  /** Whatever is sent is kept for retransmission exactly when it takes up sequence numbers. */
  lemma SendsExactly(c: Connection, flags: Flags, payload: seq<bv8>, now: nat)
    ensures var e := Send(c, flags, payload, now);
            var taken := |payload| + (if flags.syn then 1 else 0) + (if flags.fin then 1 else 0);
            && e.segment == Segment(c.sendNext, c.receiveNext, flags, Max(0, 65535 - |c.received|), payload)
            && e.connection == c.(sendNext := (c.sendNext + taken) % 0x1_0000_0000, lastActivity := now,
                                  outstanding := if taken == 0 then c.outstanding
                                                 else Some(Outstanding(e.segment, SatAdd64(now, 1_000_000), 0)))
  {
  }

  /** A write is accepted exactly in an open direction, with an empty slot, within 1200 bytes and the peer's window. */
  lemma WritesExactly(c: Connection, payload: seq<bv8>, now: nat)
    ensures var w := TcpSend(c, payload, now);
            var fits, open := 1 <= |payload| <= 1200, c.state == Established || c.state == CloseWait;
            && (w.Accepted? <==> fits && open && c.outstanding.None? && |payload| <= c.peerWindow)
            && (w == Refused(Capacity) <==> !fits) && (w == Refused(State) <==> fits && !open)
            && (w.Accepted? ==>
                  && w.emitted.segment.flags == ACK_PSH && w.emitted.segment.payload == payload
                  && w.emitted.connection.state == c.state
                  && Written(c, w.emitted.connection, w.emitted.segment, now))
  {
  }

  /** A direction is closed exactly once, when nothing is outstanding. */
  lemma ClosesExactly(c: Connection, now: nat)
    ensures var w, open := TcpClose(c, now), c.state == Established || c.state == CloseWait;
            && (w.Accepted? <==> open && c.outstanding.None?)
            && (w == Refused(Busy) <==> c.outstanding.Some?)
            && (w.Accepted? ==>
                  && w.emitted.segment.flags == ACK_FIN && w.emitted.segment.payload == []
                  && w.emitted.connection.state == (if c.state == Established then FinWait else LastAck)
                  && Written(c, w.emitted.connection, w.emitted.segment, now))
  {
  }

  /** Reading drains the buffer and tells the peer that all of it is free again. */
  lemma ReadsExactly(c: Connection)
    ensures var e := TcpRead(c);
            && e.connection == c.(received := [])
            && e.segment == Segment(c.sendNext, c.receiveNext, ACK, 65535, [])
  {
  }

  // ------------------------------------------------------------------------------- timers

  /** A connection is removed exactly once closed, idle for its time, or at the end of TimeWait. */
  lemma RemovedExactly(c: Connection, now: nat)
    ensures Tick(c, now).Expired? <==>
            || c.state == Closed
            || (c.idleTimeout.Some? && c.lastActivity + c.idleTimeout.value <= now)
            || (c.idleTimeout == Some(0))
            || (c.timeWaitUntil.Some? && c.timeWaitUntil.value <= now)
  {
  }

  /** A tick sends exactly the outstanding segment, when its wait is over, and at most five times. */
  lemma ResendsExactly(c: Connection, now: nat)
    requires Tick(c, now).Kept?
    ensures var t := Tick(c, now);
            if c.outstanding.None? || now < c.outstanding.value.deadline then t == Kept(c, None)
            else
              var o := c.outstanding.value;
              if o.retries < 5 then
                && t.resent == Some(o.segment)
                && t.connection == c.(retransmissions := c.retransmissions + 1,
                                      outstanding := Some(Outstanding(o.segment,
                                                                      SatAdd64(now, 1_000_000 * Pow2(o.retries + 1)),
                                                                      o.retries + 1)))
              else t == Kept(c.(state := Closed), None)
  {
  }
}
