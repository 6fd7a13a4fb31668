/** The mutable connection object, proved against `TcpSpec`. */
module TcpObject {
  import opened Prelude
  import opened TcpSpec

  class TcpConnection {
    var state: TcpState
    var retransmissions: nat
    var sendNext: nat
    var receiveNext: nat
    var peerWindow: nat
    var received: seq<bv8>
    var outstanding: Option<Outstanding>
    var lastActivity: nat
    var idleTimeout: Option<nat>
    var timeWaitUntil: Option<nat>
    var peerClosed: bool
    var passive: bool

    ghost function Value(): Connection
      reads this
    {
      Connection(state, retransmissions, sendNext, receiveNext, peerWindow, received, outstanding,
                 lastActivity, idleTimeout, timeWaitUntil, peerClosed, passive)
    }

    /** The peer's FIN, the state and the retransmission slot agree; every operation keeps it. */
    ghost predicate Valid()
      reads this
    {
      Consistent(Value())
    }

    constructor New(sequence: nat, now: nat)
      ensures Valid() && Value() == NewConnection(sequence, now)
    {
      state, retransmissions, sendNext, receiveNext, peerWindow := Closed, 0, sequence, 0, 65535;
      received, outstanding, lastActivity, idleTimeout := [], None, now, Some(IDLE_US);
      timeWaitUntil, peerClosed, passive := None, false, false;
    }

    /** Active open; the SYN is returned for transmission. */
    static method Connect(sequence: nat, now: nat) returns (c: TcpConnection, syn: Segment)
      ensures fresh(c) && c.Valid() && Emitted(c.Value(), syn) == TcpSpec.Connect(sequence, now)
    {
      ConnectIsConsistent(sequence, now);
      c := new TcpConnection.New(sequence, now);
      c.state := SynSent;
      syn := c.Send(SYN, [], now);
    }

    /** Passive open by a listener that received the SYN `s`. */
    static method Accept(sequence: nat, s: Segment, now: nat) returns (c: TcpConnection, synAck: Segment)
      ensures fresh(c) && c.Valid() && Emitted(c.Value(), synAck) == TcpSpec.Accept(sequence, s, now)
    {
      AcceptIsConsistent(sequence, s, now);
      c := new TcpConnection.New(sequence, now);
      c.state := SynReceived;
      c.passive := true;
      c.receiveNext := Wrap32(s.sequence + 1);
      c.peerWindow := s.window;
      synAck := c.Send(SYN_ACK, [], now);
    }

    method SegmentOf(flags: Flags, payload: seq<bv8>) returns (s: Segment)
      ensures s == TcpSpec.SegmentOf(Value(), flags, payload)
    {
      s := Segment(sendNext, receiveNext, flags, SatSub(RECEIVE_LIMIT, |received|), payload);
    }

    method Send(flags: Flags, payload: seq<bv8>, now: nat) returns (s: Segment)
      modifies this
      ensures Emitted(Value(), s) == TcpSpec.Send(old(Value()), flags, payload, now)
    {
      s := SegmentOf(flags, payload);
      sendNext := Wrap32(sendNext + SequenceLen(s));
      if SequenceLen(s) != 0 {
        outstanding := Some(Outstanding(s, SatAdd64(now, FIRST_RESEND_US), 0));
      }
      lastActivity := now;
    }

    method EnterTimeWait(now: nat)
      modifies this`state, this`timeWaitUntil
      ensures Value() == TcpSpec.EnterTimeWait(old(Value()), now)
    {
      state := TimeWait;
      timeWaitUntil := Some(SatAdd64(now, TIME_WAIT_US));
    }

    /** Send one segment, with backpressure until it is acknowledged. */
    method TcpSend(payload: seq<bv8>, now: nat) returns (r: Option<Segment>, error: Option<TcpError>)
      requires Valid()
      modifies this
      ensures Valid()
      ensures match TcpSpec.TcpSend(old(Value()), payload, now)
              case Accepted(e) => Value() == e.connection && r == Some(e.segment) && error == None
              case Refused(why) => Value() == old(Value()) && r == None && error == Some(why)
    {
      OperationsMoveForward(Value(), payload, now);
      r, error := None, None;
      if payload == [] || |payload| > MAX_PAYLOAD {
        error := Some(Capacity);
      } else if state != Established && state != CloseWait {
        error := Some(State);
      } else if outstanding.Some? || |payload| > peerWindow {
        error := Some(Busy);
      } else {
        var s := Send(ACK_PSH, payload, now);
        r := Some(s);
      }
    }

    /** Start the FIN exchange once pending data is acknowledged. */
    method TcpClose(now: nat) returns (r: Option<Segment>, error: Option<TcpError>)
      requires Valid()
      modifies this
      ensures Valid()
      ensures match TcpSpec.TcpClose(old(Value()), now)
              case Accepted(e) => Value() == e.connection && r == Some(e.segment) && error == None
              case Refused(why) => Value() == old(Value()) && r == None && error == Some(why)
    {
      OperationsMoveForward(Value(), [], now);
      r, error := None, None;
      if outstanding.Some? {
        error := Some(Busy);
        return;
      }
      if state == Established {
        state := FinWait;
      } else if state == CloseWait {
        state := LastAck;
      } else {
        error := Some(State);
        return;
      }
      var s := Send(ACK_FIN, [], now);
      r := Some(s);
    }

    /** Drain received bytes and announce the reopened window. */
    method TcpRead() returns (data: seq<bv8>, s: Segment)
      requires Valid()
      modifies this`received
      ensures Valid()
      ensures data == old(received) && Emitted(Value(), s) == TcpSpec.TcpRead(old(Value()))
    {
      data := received;
      received := [];
      s := SegmentOf(ACK, []);
    }

    method ReceiveTimeWait(s: Segment, now: nat) returns (reply: Option<Segment>)
      modifies this
      ensures Handled(Value(), reply) == TcpSpec.ReceiveTimeWait(old(Value()), s, now)
    {
      if s.flags.fin && Wrap32(s.sequence + SequenceLen(s)) == receiveNext {
        EnterTimeWait(now);
      }
      var ack := SegmentOf(ACK, []);
      reply := if SequenceLen(s) != 0 then Some(ack) else None;
    }

    method ReceiveSynSent(s: Segment, now: nat) returns (reply: Option<Segment>)
      modifies this
      ensures Handled(Value(), reply) == TcpSpec.ReceiveSynSent(old(Value()), s, now)
    {
      reply := None;
      if s.flags.syn && s.flags.ack && s.acknowledgment == sendNext {
        receiveNext := Wrap32(s.sequence + 1);
        peerWindow := s.window;
        outstanding := None;
        state := Established;
        lastActivity := now;
        var ack := SegmentOf(ACK, []);
        reply := Some(ack);
      }
    }

    method TakeText(s: Segment, now: nat) returns (reply: Option<Segment>)
      modifies this
      ensures Handled(Value(), reply) == TcpSpec.TakeText(old(Value()), s, now)
    {
      reply := None;
      ghost var c := Value();
      receiveNext := Wrap32(receiveNext + |s.payload|);
      received := received + s.payload;
      assert Value() == c.(receiveNext := receiveNext, received := received);
      if s.flags.fin {
        receiveNext := Wrap32(receiveNext + 1);
        peerClosed := true;
        if state == FinWait {
          if outstanding.None? {
            EnterTimeWait(now);
          }
        } else {
          state := CloseWait;
        }
      }
      if s.payload != [] || s.flags.fin {
        var ack := SegmentOf(ACK, []);
        reply := Some(ack);
      }
    }

    method ReceiveInOrder(s: Segment, now: nat) returns (reply: Option<Segment>)
      modifies this
      ensures Handled(Value(), reply) == TcpSpec.ReceiveInOrder(old(Value()), s, now)
    {
      reply := None;
      if s.acknowledgment == sendNext {
        outstanding := None;
        if state == SynReceived {
          state := Established;
        }
        if state == LastAck {
          state := Closed;
          return;
        }
        if state == FinWait && peerClosed {
          EnterTimeWait(now);
        }
      } else if state == SynReceived {
        return;
      }
      lastActivity := now;
      peerWindow := s.window;
      if peerClosed {
        return;
      }
      if |received| + |s.payload| > RECEIVE_LIMIT {
        var ack := SegmentOf(ACK, []);
        reply := Some(ack);
        return;
      }
      reply := TakeText(s, now);
    }

    /** Process one segment and return at most one response. */
    method Receive(s: Segment, now: nat) returns (reply: Option<Segment>)
      requires Valid()
      modifies this
      ensures Valid() && Rank(old(state)) <= Rank(state)
      ensures Handled(Value(), reply) == TcpSpec.Receive(old(Value()), s, now)
    {
      ReceiveMovesForward(Value(), s, now);
      reply := None;
      if state == Closed {
        return;
      }
      if s.flags.rst {
        var valid := if state == SynSent then s.flags.ack && s.acknowledgment == sendNext
                     else s.sequence == receiveNext;
        if valid {
          state := Closed;
          outstanding := None;
        }
        return;
      }
      if state == TimeWait {
        reply := ReceiveTimeWait(s, now);
        return;
      }
      if state == SynSent {
        reply := ReceiveSynSent(s, now);
        return;
      }
      if state == SynReceived && s.flags.syn && Wrap32(s.sequence + 1) == receiveNext {
        reply := if outstanding.Some? then Some(outstanding.value.segment) else None;
        return;
      }
      if s.sequence != receiveNext {
        var ack := SegmentOf(ACK, []);
        reply := Some(ack);
        return;
      }
      if !s.flags.ack {
        return;
      }
      reply := ReceiveInOrder(s, now);
    }

    /** Repeat the outstanding segment when its wait is over, or give up. */
    method Resend(now: nat) returns (resent: Option<Segment>)
      modifies this
      ensures Handled(Value(), resent) == TcpSpec.Resend(old(Value()), now)
    {
      resent := None;
      if outstanding.Some? && outstanding.value.deadline <= now {
        var pending := outstanding.value;
        if pending.retries >= MAX_RETRIES {
          state := Closed;
          return;
        }
        var retries := pending.retries + 1;
        outstanding := Some(Outstanding(pending.segment, SatAdd64(now, FIRST_RESEND_US * Pow2(retries)), retries));
        retransmissions := retransmissions + 1;
        resent := Some(pending.segment);
      }
    }

    /** One round of the timer: whether the connection stays, and what it resends. */
    method Tick(now: nat) returns (alive: bool, resent: Option<Segment>)
      requires Valid()
      modifies this
      ensures Valid()
      ensures match TcpSpec.Tick(old(Value()), now)
              case Expired => !alive && resent == None && Value() == old(Value())
              case Kept(c, s) => alive && Value() == c && resent == s
    {
      TickMovesForward(Value(), now);
      resent := None;
      alive := !(state == Closed
                 || (idleTimeout.Some? && SatSub(now, lastActivity) >= idleTimeout.value)
                 || (timeWaitUntil.Some? && timeWaitUntil.value <= now));
      if alive {
        resent := Resend(now);
      }
    }
  }
}
