/**
 Progress of a stream once the network stops losing segments: with everything in flight lost,
 one timer of each side and the deliveries that follow get an outstanding segment through and
 clear it, from every safe state with two connected sides.
 */
module TcpProgress {
  import opened Prelude
  import opened TcpSpec
  import opened TcpNetwork

  /** Past the handshake and not closed. */
  ghost predicate Connected(h: Host) {
    h.phase == Open && h.synced && h.c.state != Closed && !Handshaking(h)
  }

  /** What the three ways of sending leave in the retransmission slot. */
  ghost predicate Shaped(h: Host) {
    h.c.outstanding.Some? ==>
      var s := h.c.outstanding.value.segment;
      && (s.flags == SYN || s.flags == SYN_ACK || s.flags == ACK_PSH || s.flags == ACK_FIN)
      && (s.flags == ACK_PSH <==> s.payload != [])
  }

  /** The timer may repeat the outstanding segment at this time. */
  ghost predicate CanResend(c: Connection, now: nat) {
    && c.outstanding.Some? && c.outstanding.value.deadline <= now && c.outstanding.value.retries < 5
    && !IsExpired(c, now)
  }

  /** The other side's buffer has room for the outstanding payload. */
  ghost predicate Fits(h: Host, p: Host)
    requires h.c.outstanding.Some?
  {
    |p.c.received| + |h.c.outstanding.value.segment.payload| <= 65535
  }

  // -------------------------------------------------------------------------- one side

  lemma TimerRepeats(h: Host, now: nat)
    requires h.phase == Open && CanResend(h.c, now)
    ensures var e := Ticks(h, now); var s := h.c.outstanding.value.segment;
            && e.sent == {s} && e.host == h.(c := e.host.c)
            && e.host.c.outstanding.Some? && e.host.c.outstanding.value.segment == s
            && e.host.c == h.c.(outstanding := e.host.c.outstanding, retransmissions := e.host.c.retransmissions)
  {
  }

  /** Somebody who has not taken everything has taken all but the outstanding segment, which is text or a FIN. */
  lemma Behind(h: Host, p: Host, wh: set<Segment>, wp: set<Segment>)
    requires Pair(h, p, wh, wp) && Connected(h) && Connected(p) && Shaped(h) && Taken(p) != Sent(h)
    ensures h.c.outstanding.Some? && Taken(p) == Sent(h) - Pending(h)
    ensures var s := h.c.outstanding.value.segment;
            && s.flags.ack && !s.flags.syn && !s.flags.rst && s.sequence == p.c.receiveNext
    ensures !p.c.peerClosed && (p.c.state == Established || p.c.state == FinWait)
  {
  }

  /** Taking an in-order segment at the level of a side. */
  lemma SideTakes(p: Host, s: Segment, now: nat)
    requires HostOk(p) && Connected(p) && !p.c.peerClosed && (p.c.state == Established || p.c.state == FinWait)
    requires s.flags.ack && !s.flags.syn && !s.flags.rst && s.sequence == p.c.receiveNext
    requires |p.c.received| + |s.payload| <= 65535 && SequenceLen(s) > 0
    ensures var f := Receives(p, s, now);
            && f.host == p.(c := f.host.c) && f.host.c.state != Closed && !Handshaking(f.host)
            && f.sent == {SegmentOf(f.host.c, ACK, [])}
            && Taken(f.host) == Taken(p) + SequenceLen(s)
            && f.host.c.sendNext == p.c.sendNext
            && (f.host.c.outstanding == p.c.outstanding
                || (f.host.c.outstanding.None? && s.acknowledgment == p.c.sendNext))
            && (CanResend(p.c, now) && f.host.c.outstanding.Some? ==> CanResend(f.host.c, now))
  {
    TextIsTaken(p.c, s, now);
    var d := Receive(p.c, s, now).connection;
    assert Receives(p, s, now).host == p.(c := d);
    assert Delivered(p.(c := d)) == Delivered(p) + s.payload;
  }

  /** A repeat of something taken already is answered with an acknowledgment and changes no stream. */
  lemma SideRepeatsAck(p: Host, s: Segment, now: nat)
    requires HostOk(p) && Connected(p) && !s.flags.rst && s.sequence != p.c.receiveNext && SequenceLen(s) > 0
    ensures var f := Receives(p, s, now);
            && f.host == p.(c := f.host.c) && f.host.c.state == p.c.state
            && f.sent == {SegmentOf(f.host.c, ACK, [])}
            && f.host.c == p.c.(timeWaitUntil := f.host.c.timeWaitUntil)
  {
  }

  /** An in-order acknowledgment of everything sent empties the slot. */
  lemma SideIsCleared(h: Host, a: Segment, now: nat)
    requires Connected(h) && h.c.state != TimeWait && a.flags == ACK && a.payload == []
    requires a.sequence == h.c.receiveNext && a.acknowledgment == h.c.sendNext
    ensures var k := Receives(h, a, now).host;
            k == h.(c := k.c) && k.c.outstanding.None? && k.c.received == h.c.received
  {
  }

  // --------------------------------------------------------------------------- both sides

  /** What one repetition and one delivery keep of a side. */
  ghost predicate SameWritten(h: Host, k: Host) {
    && k.phase == h.phase && k.initial == h.initial && k.written == h.written && k.closed == h.closed
    && k.synced == h.synced && k.c.sendNext == h.c.sendNext
  }

  /** The peer's timer repeats what the writer has not taken, and the writer takes it. */
  lemma PeerRepeats(h: Host, p: Host, wh: set<Segment>, wp: set<Segment>, now: nat)
    requires Pair(h, p, wh, wp) && Connected(h) && Connected(p) && Shaped(p) && Taken(h) != Sent(p)
    requires CanResend(p.c, now) && Fits(p, h)
    ensures var t := p.c.outstanding.value.segment; var e := Ticks(p, now); var f := Receives(h, t, now);
            && e.sent == {t} && SameWritten(p, e.host) && Connected(e.host) && e.host.c.received == p.c.received
            && SameWritten(h, f.host) && Connected(f.host)
            && Pair(f.host, e.host, wh + f.sent, wp + e.sent)
            && Taken(f.host) == Sent(e.host)
            && (f.host.c.outstanding == h.c.outstanding
                || (f.host.c.outstanding.None? && Taken(e.host) == Sent(f.host)))
            && (CanResend(h.c, now) && f.host.c.outstanding.Some? ==> CanResend(f.host.c, now))
  {
    var t := p.c.outstanding.value.segment;
    var e := Ticks(p, now);
    Behind(p, h, wp, wh);
    TimerRepeats(p, now);
    TicksKeeps(p, h, wp, wh, now);
    SideTakes(h, t, now);
    assert !EarlyAck(e.host, t);
    ReceivesKeeps(h, e.host, wh, wp + e.sent, t, now);
    if t.acknowledgment == h.c.sendNext {
      FullAck(h, p, wh, wp, t);
    }
  }

  lemma AtIsInjective(initial: nat, x: nat, y: nat)
    requires x < W32 && y < W32 && At(initial, x) == At(initial, y)
    ensures x == y
  {
    PositionOfAt(initial, x);
    PositionOfAt(initial, y);
  }

  /** Having taken all of the sequence space is having taken every byte and the FIN. */
  lemma TakenAll(h: Host, p: Host, wh: set<Segment>)
    requires HostOk(h) && Link(h, p, wh) && p.synced && Taken(p) == Sent(h)
    ensures Delivered(p) == h.written && (h.closed ==> p.c.peerClosed) && p.c.receiveNext == At(h.initial, Sent(h))
  {
  }

  /** Whether it takes the repeated segment or has taken it before, the peer acknowledges everything. */
  lemma PeerAcknowledges(h: Host, p: Host, wh: set<Segment>, wp: set<Segment>, now: nat)
    requires Pair(h, p, wh, wp) && Connected(h) && Connected(p) && Shaped(h) && h.c.outstanding.Some? && Fits(h, p)
    ensures var s := h.c.outstanding.value.segment; var f := Receives(p, s, now);
            && f.sent == {SegmentOf(f.host.c, ACK, [])} && SameWritten(p, f.host)
            && Delivered(f.host) == h.written && (h.closed ==> f.host.c.peerClosed)
            && f.host.c.receiveNext == h.c.sendNext
  {
    var s := h.c.outstanding.value.segment;
    ReceivesKeeps(p, h, wp, wh, s, now);
    if Taken(p) != Sent(h) {
      Behind(h, p, wh, wp);
      SideTakes(p, s, now);
    } else {
      if s.sequence == p.c.receiveNext {
        AtIsInjective(h.initial, Sent(h), Sent(h) - Pending(h));
      }
      SideRepeatsAck(p, s, now);
    }
    TakenAll(h, Receives(p, s, now).host, wh);
  }

  /** The writer's timer repeats its segment, and the peer's acknowledgment empties the slot. */
  lemma WriterRepeats(h: Host, p: Host, wh: set<Segment>, wp: set<Segment>, now: nat)
    requires Pair(h, p, wh, wp) && Connected(h) && Connected(p) && Shaped(h)
    requires CanResend(h.c, now) && Fits(h, p) && Taken(h) == Sent(p)
    ensures var s := h.c.outstanding.value.segment; var e := Ticks(h, now); var f := Receives(p, s, now);
            var a := SegmentOf(f.host.c, ACK, []); var g := Receives(e.host, a, now);
            && e.sent == {s} && f.sent == {a}
            && Delivered(f.host) == h.written && (h.closed ==> f.host.c.peerClosed)
            && SameWritten(h, g.host) && g.host.c.outstanding.None?
  {
    TimerRepeats(h, now);
    PeerAcknowledges(h, p, wh, wp, now);
    var f := Receives(p, h.c.outstanding.value.segment, now);
    SideIsCleared(Ticks(h, now).host, SegmentOf(f.host.c, ACK, []), now);
  }

  // ---------------------------------------------------------------------- on the network

  function SideOf(n: Net, a: bool): Host {
    if a then n.a else n.b
  }

  function Wire(n: Net, a: bool): set<Segment> {
    if a then n.fromA else n.fromB
  }

  /** Timers, deliveries and waiting: nothing an application does, and no reset. */
  ghost predicate Unaided(actions: seq<Action>) {
    forall x :: x in actions ==> x.Pass? || x.Timer? || x.Deliver?
  }

  lemma {:induction false} RunAppend(n: Net, a: seq<Action>, b: seq<Action>)
    ensures Run(n, a + b) == Run(Run(n, a), b)
    decreases |a|
  {
    if a == [] {
      assert a + b == b;
    } else {
      assert (a + b)[0] == a[0] && (a + b)[1..] == a[1..] + b;
      RunAppend(Step(n, a[0]), a[1..], b);
    }
  }

  lemma RunLast(n: Net, a: seq<Action>, x: Action)
    ensures Run(n, a + [x]) == Step(Run(n, a), x)
  {
    RunAppend(n, a, [x]);
    assert [x][1..] == [];
  }

  /** `r` is `n` after one side did `e`. */
  ghost predicate SideDid(n: Net, r: Net, a: bool, e: Effect) {
    && SideOf(r, a) == e.host && SideOf(r, !a) == SideOf(n, !a) && r.now == n.now
    && Wire(r, a) == Wire(n, a) + e.sent && Wire(r, !a) == Wire(n, !a)
  }

  lemma TimerStep(n: Net, a: bool)
    ensures SideDid(n, Step(n, Timer(a)), a, Ticks(SideOf(n, a), n.now))
  {
  }

  lemma DeliverStep(n: Net, a: bool, s: Segment)
    requires s in Wire(n, !a) && SideOf(n, a).phase == Open
    ensures SideDid(n, Step(n, Deliver(a, s)), a, Receives(SideOf(n, a), s, n.now))
  {
  }

  /** When both timers are due. */
  ghost function DueTime(h: Host, p: Host, now: nat): nat {
    var own := if h.c.outstanding.Some? then h.c.outstanding.value.deadline else 0;
    var other := if p.c.outstanding.Some? then p.c.outstanding.value.deadline else 0;
    Max(now, Max(own, other))
  }

  /** Neither side has run out of retries or time when its timer is due, and both buffers have room. */
  ghost predicate Deliverable(h: Host, p: Host, now: nat) {
    && Connected(h) && Connected(p) && h.c.outstanding.Some? && Fits(h, p)
    && CanResend(h.c, DueTime(h, p, now))
    && (p.c.outstanding.Some? ==> Fits(p, h) && CanResend(p.c, DueTime(h, p, now)))
  }

  /** Everything the writer has written, and its FIN, has been taken, and it knows. */
  ghost predicate GotThrough(before: Host, h: Host, p: Host) {
    && h.written == before.written && h.closed == before.closed && h.c.outstanding.None?
    && Delivered(p) == h.written && (h.closed ==> p.c.peerClosed)
  }

  /** First the peer's timer, if the writer has not taken everything. */
  lemma PeerFirst(n: Net, w: bool, wh: set<Segment>, wp: set<Segment>)
    returns (r: Net, actions: seq<Action>, vh: set<Segment>, vp: set<Segment>)
    requires var h, p := SideOf(n, w), SideOf(n, !w);
             && Pair(h, p, wh, wp) && Connected(h) && Connected(p) && Shaped(h) && Shaped(p)
             && CanResend(h.c, n.now) && Fits(h, p)
             && (p.c.outstanding.Some? ==> Fits(p, h) && CanResend(p.c, n.now))
    ensures Unaided(actions) && r == Run(n, actions) && r.now == n.now
    ensures var h, p := SideOf(r, w), SideOf(r, !w);
            && SameWritten(SideOf(n, w), h) && Connected(h) && Connected(p)
            && Pair(h, p, vh, vp) && Taken(h) == Sent(p)
            && (if h.c.outstanding.Some? then Shaped(h) && CanResend(h.c, r.now) && Fits(h, p) else Taken(p) == Sent(h))
  {
    var h, p := SideOf(n, w), SideOf(n, !w);
    if Taken(h) == Sent(p) {
      r, actions, vh, vp := n, [], wh, wp;
    } else {
      Behind(p, h, wp, wh);
      PeerRepeats(h, p, wh, wp, n.now);
      var t := p.c.outstanding.value.segment;
      var m := Step(n, Timer(!w));
      TimerStep(n, !w);
      DeliverStep(m, w, t);
      r := Step(m, Deliver(w, t));
      actions := [Timer(!w)] + [Deliver(w, t)];
      RunTwo(n, Timer(!w), Deliver(w, t));
      vh, vp := wh + Receives(h, t, n.now).sent, wp + Ticks(p, n.now).sent;
    }
  }

  lemma RunTwo(n: Net, x: Action, y: Action)
    ensures Run(n, [x] + [y]) == Step(Step(n, x), y)
  {
    assert Run(n, []) == n && [] + [x] == [x];
    RunLast(n, [], x);
    RunLast(n, [x], y);
  }

  /** Then the writer's timer, and the peer's acknowledgment. */
  lemma WriterNext(n: Net, w: bool, wh: set<Segment>, wp: set<Segment>) returns (r: Net, actions: seq<Action>)
    requires var h, p := SideOf(n, w), SideOf(n, !w);
             && Pair(h, p, wh, wp) && Connected(h) && Connected(p) && Shaped(h)
             && CanResend(h.c, n.now) && Fits(h, p) && Taken(h) == Sent(p)
    ensures Unaided(actions) && r == Run(n, actions) && GotThrough(SideOf(n, w), SideOf(r, w), SideOf(r, !w))
  {
    var h, p := SideOf(n, w), SideOf(n, !w);
    WriterRepeats(h, p, wh, wp, n.now);
    var s := h.c.outstanding.value.segment;
    var a := SegmentOf(Receives(p, s, n.now).host.c, ACK, []);
    var m := Step(n, Timer(w));
    TimerStep(n, w);
    TimerRepeats(h, n.now);
    DeliverStep(m, !w, s);
    var k := Step(m, Deliver(!w, s));
    DeliverStep(k, w, a);
    r := Step(k, Deliver(w, a));
    RunTwo(n, Timer(w), Deliver(!w, s));
    actions := [Timer(w)] + [Deliver(!w, s)] + [Deliver(w, a)];
    RunLast(n, [Timer(w)] + [Deliver(!w, s)], Deliver(w, a));
  }

  lemma PassStep(n: Net, time: nat)
    requires n.now <= time
    ensures Step(n, Pass(time)) == n.(now := time)
  {
  }

  lemma GetsThrough(n: Net, w: bool, wh: set<Segment>, wp: set<Segment>) returns (actions: seq<Action>)
    requires var h, p := SideOf(n, w), SideOf(n, !w);
             Pair(h, p, wh, wp) && Shaped(h) && Shaped(p) && Deliverable(h, p, n.now)
    ensures var r := Run(n, actions);
            Unaided(actions) && GotThrough(SideOf(n, w), SideOf(r, w), SideOf(r, !w))
  {
    var time := DueTime(SideOf(n, w), SideOf(n, !w), n.now);
    var due := n.(now := time);
    PassStep(n, time);
    assert Run(n, [Pass(time)]) == due by {
      assert [] + [Pass(time)] == [Pass(time)];
      RunLast(n, [], Pass(time));
    }
    var m, first, vh, vp := PeerFirst(due, w, wh, wp);
    RunAppend(n, [Pass(time)], first);
    actions := [Pass(time)] + first;
    if SideOf(m, w).c.outstanding.Some? {
      var r, second := WriterNext(m, w, vh, vp);
      RunAppend(n, actions, second);
      actions := actions + second;
    } else {
      TakenAll(SideOf(m, w), SideOf(m, !w), vh);
    }
  }

  // ---------------------------------------------------------------- shapes along every run

  lemma SegmentsAreShaped(h: Host, e: Effect, payload: seq<bv8>, now: nat)
    requires Shaped(h)
    requires || e == Writes(h, payload, now) || e == Shuts(h, now) || e == Drains(h)
             || e == Ticks(h, now) || e == Dials(h, now)
    ensures Shaped(e.host)
  {
  }

  lemma ReceivingKeepsShape(h: Host, s: Segment, now: nat)
    requires Shaped(h)
    ensures Shaped(Receives(h, s, now).host) && Shaped(Listens(h, s, now).host)
  {
    ReceiveKeepsSlot(h.c, s, now);
  }

  /** Whatever arrives, the slot stays or is emptied. */
  lemma ReceiveKeepsSlot(c: Connection, s: Segment, now: nat)
    ensures var d := Receive(c, s, now).connection; d.outstanding == c.outstanding || d.outstanding.None?
  {
  }

  lemma StepKeepsShape(n: Net, x: Action, a: bool)
    requires Shaped(SideOf(n, a))
    ensures Shaped(SideOf(Step(n, x), a))
  {
    var h := SideOf(n, a);
    match x {
      case Dial => SegmentsAreShaped(h, Dials(h, n.now), [], n.now);
      case Deliver(_, s) => ReceivingKeepsShape(h, s, n.now);
      case Inject(_, s) => ReceivingKeepsShape(h, s, n.now);
      case Write(_, payload) => SegmentsAreShaped(h, Writes(h, payload, n.now), payload, n.now);
      case Shut(_) => SegmentsAreShaped(h, Shuts(h, n.now), [], n.now);
      case Drain(_) => SegmentsAreShaped(h, Drains(h), [], n.now);
      case Timer(_) => SegmentsAreShaped(h, Ticks(h, n.now), [], n.now);
      case Vanish(_) =>
      case Pass(_) =>
    }
  }

  lemma {:induction false} RunKeepsShape(n: Net, actions: seq<Action>, a: bool)
    requires Shaped(SideOf(n, a))
    ensures Shaped(SideOf(Run(n, actions), a))
    decreases |actions|
  {
    if actions != [] {
      StepKeepsShape(n, actions[0], a);
      RunKeepsShape(Step(n, actions[0]), actions[1..], a);
    }
  }

  lemma SidePair(n: Net, w: bool)
    requires TcpNetwork.Invariant(n)
    ensures Pair(SideOf(n, w), SideOf(n, !w), Wire(n, w), Wire(n, !w))
  {
  }

  /**
   After any safe run, even if everything in flight is lost, timers and deliveries alone get an
   outstanding text or FIN through between two connected sides: the peer then has every byte
   written, and the slot is empty. Needed are only that neither connection has used up its
   retries or its idle time when its timer is due, and that the buffers have room.
   */
  lemma OutstandingGetsThrough(n: Net, actions: seq<Action>, w: bool)
    requires Initial(n) && NeverErases(n, actions)
    requires var r := Run(n, actions); Deliverable(SideOf(r, w), SideOf(r, !w), r.now)
    ensures var r := Run(n, actions);
            exists more :: Unaided(more) &&
              var d := Run(r.(fromA := {}, fromB := {}), more); GotThrough(SideOf(r, w), SideOf(d, w), SideOf(d, !w))
  {
    var r := Run(n, actions);
    TcpNetwork.Reachable(n, actions);
    RunKeepsShape(n, actions, w);
    RunKeepsShape(n, actions, !w);
    SidePair(r, w);
    var more := GetsThrough(r.(fromA := {}, fromB := {}), w, Wire(r, w), Wire(r, !w));
  }

  // ------------------------------------------------------------------------ the handshake

  /** The three segments of a handshake between these initial numbers. */
  ghost function SynOf(n: Net): Segment { Segment(n.a.initial, 0, SYN, 65535, []) }

  ghost function SynAckOf(n: Net): Segment {
    Segment(n.b.initial, Wrap32(n.a.initial + 1), SYN_ACK, 65535, [])
  }

  ghost function AckOf(n: Net): Segment {
    Segment(Wrap32(n.a.initial + 1), Wrap32(n.b.initial + 1), ACK, 65535, [])
  }

  lemma DialSends(n: Net)
    requires Initial(n)
    ensures var r := Step(n, Dial);
            && SynOf(n) in r.fromA && r.b == n.b && r.a.phase == Open && r.a.c.state == SynSent
            && r.a.c.sendNext == Wrap32(n.a.initial + 1) && !r.a.c.peerClosed
  {
  }

  lemma ListenerAnswers(n: Net, m: Net)
    requires Initial(n) && m.b == n.b && SynOf(n) in m.fromA
    ensures var r := Step(m, Deliver(false, SynOf(n)));
            && SynAckOf(n) in r.fromB && r.a == m.a && r.b.phase == Open && r.b.c.state == SynReceived
            && r.b.c.sendNext == Wrap32(n.b.initial + 1) && r.b.c.receiveNext == Wrap32(n.a.initial + 1)
            && !r.b.c.peerClosed && r.b.synced && r.b.c.received == []
  {
  }

  lemma DialerAnswers(n: Net, m: Net)
    requires SynAckOf(n) in m.fromB && m.a.phase == Open && m.a.c.state == SynSent
    requires m.a.c.sendNext == Wrap32(n.a.initial + 1) && m.a.c.received == []
    ensures var r := Step(m, Deliver(true, SynAckOf(n)));
            && AckOf(n) in r.fromA && r.b == m.b && Connected(r.a) && r.a.c.state == Established
            && r.a.c.outstanding.None?
  {
  }

  lemma ListenerConnects(n: Net, m: Net)
    requires AckOf(n) in m.fromA && m.b.phase == Open && m.b.c.state == SynReceived && m.b.synced
    requires m.b.c.sendNext == Wrap32(n.b.initial + 1) && m.b.c.receiveNext == Wrap32(n.a.initial + 1)
    requires !m.b.c.peerClosed && m.b.c.received == []
    ensures var r := Step(m, Deliver(false, AckOf(n)));
            && r.a == m.a && Connected(r.b) && r.b.c.state == Established && r.b.c.outstanding.None?
  {
  }

  /** A call and three deliveries connect both sides, whatever their initial numbers, ready to write. */
  lemma HandshakeCompletes(n: Net)
    requires Initial(n)
    ensures var three := [Deliver(false, SynOf(n))] + [Deliver(true, SynAckOf(n))] + [Deliver(false, AckOf(n))];
            var r := Run(n, [Dial] + three);
            && Connected(r.a) && r.a.c.state == Established && r.a.c.outstanding.None?
            && Connected(r.b) && r.b.c.state == Established && r.b.c.outstanding.None?
  {
    var x, y, z, u := Dial, Deliver(false, SynOf(n)), Deliver(true, SynAckOf(n)), Deliver(false, AckOf(n));
    RunTwo(n, x, y);
    RunLast(n, [x] + [y], z);
    RunLast(n, [x] + [y] + [z], u);
    assert [x] + [y] + [z] + [u] == [x] + ([y] + [z] + [u]);
    DialSends(n);
    assert Step(n, x).a.c.received == [];
    ListenerAnswers(n, Step(n, x));
    DialerAnswers(n, Step(Step(n, x), y));
    ListenerConnects(n, Step(Step(Step(n, x), y), z));
  }
}
