/**
 Two TCP endpoints and a network that loses, duplicates and reorders segments.

 The network keeps every segment ever sent; a delivery takes any of them, any number of
 times. Resets may be injected with any content at any moment. Each side opens once, and a
 side removed from its table stays removed. Positions in the two byte streams are recovered
 from the 32-bit sequence numbers, which is possible because fewer than 2^32 - 2 bytes are
 written in each direction.
 */
module TcpNetwork {
  import opened Prelude
  import opened TcpSpec

  datatype Phase = Fresh | Open | Gone

  /** One side, with the history of what its application wrote, read and closed. */
  datatype Host = Host(
    phase: Phase,
    initial: nat,           // initial sequence number
    c: Connection,
    written: seq<bv8>,
    closed: bool,
    read: seq<bv8>,
    synced: bool,           // has learned the peer's initial sequence number
    hasty: bool)            // has read before that

  /** `a` opens actively, `b` listens; `fromA` and `fromB` are all segments sent so far. */
  datatype Net = Net(a: Host, b: Host, fromA: set<Segment>, fromB: set<Segment>, now: nat)

  datatype Action =
    | Dial
    | Deliver(toA: bool, s: Segment)
    | Inject(toA: bool, s: Segment)
    | Write(a: bool, payload: seq<bv8>)
    | Shut(a: bool)
    | Drain(a: bool)
    | Timer(a: bool)
    | Vanish(a: bool)
    | Pass(time: nat)

  datatype Effect = Effect(host: Host, sent: set<Segment>)

  /** Everything the receiver has taken in order, whether or not the application has read it. */
  function Delivered(h: Host): seq<bv8> {
    h.read + h.c.received
  }

  // ------------------------------------------------------------------------------- steps

  function OneOrNone(s: Option<Segment>): set<Segment> {
    if s.Some? then {s.value} else {}
  }

  function Receives(h: Host, s: Segment, now: nat): Effect {
    match h.phase
    case Open =>
      var r := Receive(h.c, s, now);
      Effect(h.(c := r.connection, synced := h.synced || r.connection.state == Established), OneOrNone(r.reply))
    case _ => Effect(h, {})
  }

  /** A listener turns an exact SYN into a connection. */
  function Listens(h: Host, s: Segment, now: nat): Effect {
    if h.phase == Fresh && s.flags == SYN then
      var e := Accept(h.initial, s, now);
      Effect(h.(phase := Open, c := e.connection, synced := true), {e.segment})
    else Receives(h, s, now)
  }

  function Writes(h: Host, payload: seq<bv8>, now: nat): Effect {
    if h.phase != Open || |h.written| + |payload| + 2 >= W32 then Effect(h, {})
    else
      match TcpSend(h.c, payload, now)
      case Accepted(e) => Effect(h.(c := e.connection, written := h.written + payload), {e.segment})
      case Refused(_) => Effect(h, {})
  }

  function Shuts(h: Host, now: nat): Effect {
    if h.phase != Open then Effect(h, {})
    else
      match TcpClose(h.c, now)
      case Accepted(e) => Effect(h.(c := e.connection, closed := true), {e.segment})
      case Refused(_) => Effect(h, {})
  }

  function Drains(h: Host): Effect {
    if h.phase != Open then Effect(h, {})
    else
      var e := TcpRead(h.c);
      Effect(h.(c := e.connection, read := Delivered(h), hasty := h.hasty || !h.synced), {e.segment})
  }

  function Ticks(h: Host, now: nat): Effect {
    if h.phase != Open then Effect(h, {})
    else
      match Tick(h.c, now)
      case Expired => Effect(h.(phase := Gone), {})
      case Kept(c, s) => Effect(h.(c := c), OneOrNone(s))
  }

  function Dials(h: Host, now: nat): Effect {
    if h.phase != Fresh then Effect(h, {})
    else
      var e := Connect(h.initial, now);
      Effect(h.(phase := Open, c := e.connection), {e.segment})
  }

  function Moved(n: Net, a: bool, e: Effect): Net {
    if a then n.(a := e.host, fromA := n.fromA + e.sent) else n.(b := e.host, fromB := n.fromB + e.sent)
  }

  function Step(n: Net, action: Action): Net {
    match action
    case Dial => Moved(n, true, Dials(n.a, n.now))
    case Deliver(toA, s) =>
      if toA then
        if s in n.fromB then Moved(n, true, Receives(n.a, s, n.now)) else n
      else
        if s in n.fromA then Moved(n, false, Listens(n.b, s, n.now)) else n
    case Inject(toA, s) =>
      if !s.flags.rst then n else Moved(n, toA, Receives(if toA then n.a else n.b, s, n.now))
    case Write(a, payload) => Moved(n, a, Writes(if a then n.a else n.b, payload, n.now))
    case Shut(a) => Moved(n, a, Shuts(if a then n.a else n.b, n.now))
    case Drain(a) => Moved(n, a, Drains(if a then n.a else n.b))
    case Timer(a) => Moved(n, a, Ticks(if a then n.a else n.b, n.now))
    case Vanish(a) =>
      if a then n.(a := if n.a.phase == Open then n.a.(phase := Gone) else n.a)
      else n.(b := if n.b.phase == Open then n.b.(phase := Gone) else n.b)
    case Pass(time) => if n.now <= time then n.(now := time) else n
  }

  function Run(n: Net, actions: seq<Action>): Net
    decreases |actions|
  {
    if actions == [] then n else Run(Step(n, actions[0]), actions[1..])
  }

  ghost predicate Initial(n: Net) {
    && n.a.initial < W32 && n.b.initial < W32
    && n.a == Host(Fresh, n.a.initial, NewConnection(n.a.initial, n.now), [], false, [], false, false)
    && n.b == Host(Fresh, n.b.initial, NewConnection(n.b.initial, n.now), [], false, [], false, false)
    && n.fromA == {} && n.fromB == {}
  }

  // --------------------------------------------------------------------------- positions

  /** The sequence number at stream position `p`; the SYN is position 0. */
  ghost function At(initial: nat, p: int): nat {
    Wrap32(initial + p)
  }

  /** The stream position of a sequence number. */
  ghost function Position(initial: nat, sequence: nat): nat {
    Wrap32(sequence - initial)
  }

  lemma ModShift(x: int, k: int)
    ensures (x + W32 * k) % W32 == x % W32
  {
  }

  lemma PositionOfAt(initial: nat, p: int)
    requires 0 <= p < W32
    ensures Position(initial, At(initial, p)) == p
  {
    ModShift(p, -((initial + p) / W32));
  }

  lemma AtOfPosition(initial: nat, sequence: nat)
    requires sequence < W32
    ensures At(initial, Position(initial, sequence)) == sequence
  {
    ModShift(sequence, -((sequence - initial) / W32));
  }

  lemma AtStep(initial: nat, p: int, k: nat)
    ensures Wrap32(At(initial, p) + k) == At(initial, p + k)
  {
    ModShift(initial + p + k, -((initial + p) / W32));
  }

  // --------------------------------------------------------------------------- invariant

  /** Sequence space used so far: SYN, every written byte, FIN. */
  ghost function Sent(h: Host): nat {
    if h.phase == Fresh then 0 else 1 + |h.written| + (if h.closed then 1 else 0)
  }

  /** Sequence space taken from the peer. */
  ghost function Taken(h: Host): nat {
    if !h.synced then 0 else 1 + |Delivered(h)| + (if h.c.peerClosed then 1 else 0)
  }

  /** Sequence space that need not be sent again; the SYN carries no text, so it always counts. */
  ghost function Reached(h: Host): nat {
    Max(Taken(h), 1)
  }

  ghost function Pending(h: Host): nat {
    if h.c.outstanding.Some? then SequenceLen(h.c.outstanding.value.segment) else 0
  }

  ghost predicate Handshaking(h: Host) {
    h.c.state == SynSent || h.c.state == SynReceived
  }

  ghost predicate HostOk(h: Host) {
    && Consistent(h.c) && h.initial < W32 && |h.written| + 2 < W32
    && (h.phase == Fresh ==> h.written == [] && !h.closed && Delivered(h) == [] && !h.synced
                             && h.c.outstanding.None? && h.c.state == Closed)
    && (h.phase != Fresh ==> h.c.sendNext == At(h.initial, Sent(h)))
    && (h.c.state == SynSent ==> !h.synced)
    && (h.c.state != SynSent && h.c.state != Closed ==> h.synced)
    && (!h.synced ==> h.written == [] && !h.closed && Delivered(h) == [] && !h.c.peerClosed && h.c.receiveNext == 0)
    && (Handshaking(h) ==> h.written == [] && !h.closed && h.c.outstanding.Some? && Delivered(h) == [])
    && (h.c.state == Established || h.c.state == CloseWait ==> !h.closed)
    && (h.c.state == FinWait || h.c.state == LastAck || h.c.state == TimeWait ==> h.closed)
    && (h.c.outstanding.Some? && h.c.outstanding.value.segment.flags.syn ==> Handshaking(h) || h.c.state == Closed)
    && Pending(h) <= Sent(h)
    && (h.c.outstanding.Some? ==> h.c.outstanding.value.segment.sequence == At(h.initial, Sent(h) - Pending(h)))
  }

  /** The window update of a read made before `x` knew its peer's numbers: it acknowledges number 0. */
  ghost predicate EarlyAck(x: Host, s: Segment) {
    x.hasty && s.flags == ACK && s.payload == [] && s.acknowledgment == 0 && Position(x.initial, s.sequence) == 1
  }

  /**
   What a segment sent by `x` to `y` says is true of the streams, except that an early
   acknowledgment says nothing.
  */
  ghost predicate SegmentOk(x: Host, y: Host, s: Segment) {
    var p := Position(x.initial, s.sequence);
    && s.sequence < W32 && !s.flags.rst && x.phase != Fresh
    && (if s.flags.syn then p == 0 && s.payload == [] && !s.flags.fin
        else p >= 1 && p - 1 + |s.payload| <= |x.written| + (if x.closed && s.payload == [] then 1 else 0)
             && (s.payload != [] ==> s.payload == x.written[p - 1..p - 1 + |s.payload|])
             && (s.flags.fin ==> x.closed && p + |s.payload| == 1 + |x.written|))
    && (s.flags.ack && !EarlyAck(x, s) ==>
          x.synced && s.acknowledgment < W32 && Position(y.initial, s.acknowledgment) <= Taken(x))
  }

  ghost predicate WireOk(x: Host, y: Host, wire: set<Segment>) {
    forall s {:trigger SegmentOk(x, y, s)} :: s in wire ==> SegmentOk(x, y, s)
  }

  /** The segment is the outstanding one, or ends before it. */
  ghost predicate BeforePending(x: Host, s: Segment)
    requires x.c.outstanding.Some?
  {
    SequenceLen(s) > 0 ==>
      || (s.sequence == x.c.outstanding.value.segment.sequence && SequenceLen(s) == Pending(x))
      || Position(x.initial, s.sequence) + SequenceLen(s) <= Sent(x) - Pending(x)
  }

  /** Outstanding text is the last of the sequence space; everything else sent ends before it. */
  ghost predicate LastInFlight(x: Host, wire: set<Segment>) {
    x.c.outstanding.Some? ==>
      && x.c.outstanding.value.segment in wire
      && forall s {:trigger BeforePending(x, s)} :: s in wire ==> BeforePending(x, s)
  }

  /** Everything known about the direction from `x` to `y`. */
  ghost predicate Link(x: Host, y: Host, wire: set<Segment>) {
    && (y.synced ==> x.phase != Fresh && y.c.receiveNext == At(x.initial, Taken(y)))
    && Taken(y) <= Sent(x)
    && Delivered(y) <= x.written
    && (y.c.peerClosed ==> x.closed && Delivered(y) == x.written)
    && WireOk(x, y, wire)
    && LastInFlight(x, wire)
    && (Reached(y) == Sent(x) || Reached(y) == Sent(x) - Pending(x) || x.c.state == Closed)
    && (x.phase == Fresh ==> wire == {})
  }

  ghost predicate Pair(h: Host, p: Host, wh: set<Segment>, wp: set<Segment>) {
    HostOk(h) && HostOk(p) && Link(h, p, wh) && Link(p, h, wp)
  }

  /** A listener knows its peer's numbers from the start, so it never reads too early. */
  ghost predicate Listener(h: Host) {
    !h.hasty && (h.phase != Fresh ==> h.synced)
  }

  ghost predicate Invariant(n: Net) {
    Pair(n.a, n.b, n.fromA, n.fromB) && Listener(n.b)
  }

  /**
   Delivering `s` to `h` clears text or a FIN that `p` has not taken: an early acknowledgment
   arrives in order just when the next sequence number of `h` is 0 and something is outstanding.
   */
  ghost predicate Erases(h: Host, p: Host, s: Segment) {
    && h.phase == Open && (h.c.state == Established || h.c.state == FinWait)
    && EarlyAck(p, s) && s.sequence == h.c.receiveNext && h.c.sendNext == 0
    && h.c.outstanding.Some? && Taken(p) != Sent(h)
  }

  // ------------------------------------------------------------------- one side at a time

  /** `k` is a later state of `h`: what segments say of it stays true. */
  ghost predicate Later(h: Host, k: Host) {
    && (h.phase != Fresh ==> k.phase != Fresh) && k.initial == h.initial
    && h.written <= k.written && (h.closed ==> k.closed && k.written == h.written)
    && (h.hasty ==> k.hasty) && (h.synced ==> k.synced) && Taken(h) <= Taken(k)
  }

  lemma SegmentStays(x: Host, k: Host, y: Host, z: Host, s: Segment)
    requires SegmentOk(x, y, s) && Later(x, k) && y.initial == z.initial
    ensures SegmentOk(k, z, s)
  {
  }

  lemma WireStays(x: Host, k: Host, y: Host, z: Host, wire: set<Segment>)
    requires WireOk(x, y, wire) && Later(x, k) && y.initial == z.initial
    ensures WireOk(k, z, wire)
  {
    forall s | s in wire ensures SegmentOk(k, z, s) {
      assert SegmentOk(x, y, s);
      SegmentStays(x, k, y, z, s);
    }
  }

  /** The incoming link when nothing was taken. */
  lemma InLinkStays(p: Host, h: Host, k: Host, wp: set<Segment>)
    requires Link(p, h, wp) && k.initial == h.initial
    requires k.synced == h.synced && (h.synced ==> k.c.receiveNext == h.c.receiveNext)
    requires Delivered(k) == Delivered(h) && k.c.peerClosed == h.c.peerClosed
    ensures Link(p, k, wp)
  {
    WireStays(p, p, h, k, wp);
  }

  /** The outgoing link when nothing new was written. */
  lemma OutLinkStays(h: Host, k: Host, p: Host, wh: set<Segment>, sent: set<Segment>)
    requires Link(h, p, wh) && Later(h, k) && h.phase != Fresh && k.written == h.written && k.closed == h.closed
    requires h.c.state == Closed ==> k.c.state == Closed
    requires k.c.outstanding.Some? ==>
               h.c.outstanding.Some? && k.c.outstanding.value.segment == h.c.outstanding.value.segment
    requires k.c.outstanding.None? ==> h.c.outstanding.None? || k.c.state == Closed || Reached(p) == Sent(h)
    requires forall s :: s in sent ==> s in wh || (SegmentOk(k, p, s) && SequenceLen(s) == 0)
    ensures Link(k, p, wh + sent)
  {
    WireStays(h, k, p, p, wh);
    assert WireOk(k, p, wh + sent);
    if k.c.outstanding.Some? {
      forall s | s in wh + sent ensures BeforePending(k, s) {
        assert s in wh ==> BeforePending(h, s);
      }
    }
  }

  /** Nothing that the two links speak of has changed, except perhaps the retransmission slot. */
  ghost predicate SameStreams(h: Host, k: Host) {
    && k.phase == h.phase && h.phase != Fresh && k.initial == h.initial
    && k.written == h.written && k.closed == h.closed && k.synced == h.synced && (h.hasty ==> k.hasty)
    && Delivered(k) == Delivered(h)
    && k.c.sendNext == h.c.sendNext && k.c.receiveNext == h.c.receiveNext && k.c.peerClosed == h.c.peerClosed
    && (h.c.state == Closed ==> k.c.state == Closed)
  }

  ghost predicate PureAck(h: Host, s: Segment) {
    s == SegmentOf(h.c, ACK, []) && (h.synced || h.hasty)
  }

  lemma PureAckOk(h: Host, p: Host, wp: set<Segment>, s: Segment)
    requires HostOk(h) && HostOk(p) && h.phase != Fresh && Link(p, h, wp) && PureAck(h, s)
    ensures SegmentOk(h, p, s) && SequenceLen(s) == 0
  {
    PositionOfAt(h.initial, Sent(h));
    if h.synced {
      PositionOfAt(p.initial, Taken(h));
    }
  }

  /** A side that only acknowledges, repeats itself, or gives up keeps both links. */
  lemma QuietKeeps(h: Host, k: Host, p: Host, wh: set<Segment>, wp: set<Segment>, sent: set<Segment>)
    requires Pair(h, p, wh, wp) && SameStreams(h, k) && HostOk(k)
    requires k.c.outstanding.Some? ==>
               h.c.outstanding.Some? && k.c.outstanding.value.segment == h.c.outstanding.value.segment
    requires k.c.outstanding.None? ==> h.c.outstanding.None? || k.c.state == Closed || Reached(p) == Sent(h)
    requires forall s :: s in sent ==> s in wh || PureAck(k, s)
    ensures Pair(k, p, wh + sent, wp)
  {
    InLinkStays(p, h, k, wp);
    PureAcksOk(k, p, wh, wp, sent);
    OutLinkStays(h, k, p, wh, sent);
  }

  lemma PureAcksOk(k: Host, p: Host, wh: set<Segment>, wp: set<Segment>, sent: set<Segment>)
    requires HostOk(k) && HostOk(p) && k.phase != Fresh && Link(p, k, wp)
    requires forall s :: s in sent ==> s in wh || PureAck(k, s)
    ensures forall s :: s in sent ==> s in wh || (SegmentOk(k, p, s) && SequenceLen(s) == 0)
  {
    forall s | s in sent && s !in wh ensures SegmentOk(k, p, s) && SequenceLen(s) == 0 {
      PureAckOk(k, p, wp, s);
    }
  }

  /** An acknowledgment of everything sent, unless it is early, proves that the peer has taken everything. */
  lemma FullAck(h: Host, p: Host, wh: set<Segment>, wp: set<Segment>, s: Segment)
    requires Pair(h, p, wh, wp) && s in wp && h.phase != Fresh && s.flags.ack && s.acknowledgment == h.c.sendNext
    requires !EarlyAck(p, s)
    ensures Taken(p) == Sent(h) && p.synced
  {
    assert SegmentOk(p, h, s);
    PositionOfAt(h.initial, Sent(h));
  }

  /** An acknowledgment that does not erase clears nothing the peer still needs. */
  lemma HarmlessAck(h: Host, p: Host, wh: set<Segment>, wp: set<Segment>, s: Segment)
    requires Pair(h, p, wh, wp) && s in wp && h.phase == Open && s.flags.ack && s.acknowledgment == h.c.sendNext
    requires h.c.state != Closed && h.c.state != TimeWait && h.c.state != SynSent
    requires s.sequence == h.c.receiveNext && !Erases(h, p, s)
    ensures h.c.outstanding.None? || Reached(p) == Sent(h)
  {
    if EarlyAck(p, s) {
      InOrderPosition(h, p, wh, wp, s);
    } else {
      FullAck(h, p, wh, wp, s);
    }
  }

  /** An in-order segment is exactly at the position the receiver expects. */
  lemma InOrderPosition(h: Host, p: Host, wh: set<Segment>, wp: set<Segment>, s: Segment)
    requires Pair(h, p, wh, wp) && s in wp && h.synced && s.sequence == h.c.receiveNext
    ensures Position(p.initial, s.sequence) == Taken(h) && Taken(h) >= 1 && !s.flags.syn
  {
    assert SegmentOk(p, h, s);
    PositionOfAt(p.initial, Taken(h));
  }

  /** The text of an in-order segment continues the delivered stream. */
  lemma TextContinues(h: Host, p: Host, wp: set<Segment>, s: Segment)
    requires HostOk(p) && Link(p, h, wp) && s in wp && h.synced && !h.c.peerClosed
    requires Position(p.initial, s.sequence) == Taken(h) && !s.flags.syn
    ensures Delivered(h) + s.payload <= p.written
    ensures s.flags.fin ==> p.closed && Delivered(h) + s.payload == p.written
    ensures Taken(h) + SequenceLen(s) <= Sent(p)
  {
    assert SegmentOk(p, h, s);
  }

  /** An in-order segment is the outstanding one, or empty. */
  lemma TextReaches(h: Host, p: Host, wp: set<Segment>, s: Segment)
    requires HostOk(p) && Link(p, h, wp) && s in wp && h.synced
    requires Position(p.initial, s.sequence) == Taken(h) && Taken(h) + SequenceLen(s) <= Sent(p)
    ensures var r := Taken(h) + SequenceLen(s); r == Sent(p) || r == Sent(p) - Pending(p) || p.c.state == Closed
  {
    if p.c.outstanding.Some? {
      assert BeforePending(p, s);
      PositionOfAt(p.initial, Sent(p) - Pending(p));
    }
  }

  lemma TextLinkIn(h: Host, p: Host, wp: set<Segment>, s: Segment, k: Host)
    requires Link(p, h, wp) && h.synced && !h.c.peerClosed
    requires k == h.(c := k.c) && k.c.received == h.c.received + s.payload && k.c.peerClosed == s.flags.fin
    requires !s.flags.syn && k.c.receiveNext == At(p.initial, Taken(h) + SequenceLen(s))
    requires Delivered(h) + s.payload <= p.written
    requires s.flags.fin ==> p.closed && Delivered(h) + s.payload == p.written
    requires Taken(h) + SequenceLen(s) <= Sent(p)
    requires var r := Taken(h) + SequenceLen(s); r == Sent(p) || r == Sent(p) - Pending(p) || p.c.state == Closed
    ensures Taken(k) == Taken(h) + SequenceLen(s)
    ensures Link(p, k, wp)
  {
    assert Delivered(k) == Delivered(h) + s.payload;
    WireStays(p, p, h, k, wp);
  }

  /** Taking in-order text: the delivered stream grows by the next stretch of what was written. */
  lemma TextExtends(h: Host, p: Host, wh: set<Segment>, wp: set<Segment>, s: Segment, k: Host)
    requires Pair(h, p, wh, wp) && s in wp && h.synced && s.sequence == h.c.receiveNext && !h.c.peerClosed
    requires k == h.(c := k.c) && k.c.received == h.c.received + s.payload && k.c.peerClosed == s.flags.fin
    requires k.c.receiveNext == Wrap32(h.c.receiveNext + SequenceLen(s))
    ensures Taken(k) == Taken(h) + SequenceLen(s)
    ensures Link(p, k, wp)
  {
    InOrderPosition(h, p, wh, wp, s);
    TextContinues(h, p, wp, s);
    TextReaches(h, p, wp, s);
    AtStep(p.initial, Taken(h), SequenceLen(s));
    TextLinkIn(h, p, wp, s, k);
  }

  /** What taking the text and FIN of `s` makes of a connection. */
  ghost predicate TookText(c: Connection, s: Segment, r: Handled) {
    var d := r.connection;
    && Consistent(d) && d.received == c.received + s.payload && d.peerClosed == s.flags.fin
    && d.receiveNext == Wrap32(c.receiveNext + SequenceLen(s))
    && d.sendNext == c.sendNext && d.outstanding == c.outstanding
    && d.state == (if !s.flags.fin then c.state else if c.state == Established then CloseWait
                   else if c.outstanding.None? then TimeWait else FinWait)
    && (r.reply.Some? ==> r.reply.value == SegmentOf(d, ACK, []))
  }

  lemma TakeTextFields(c: Connection, s: Segment, now: nat)
    requires Consistent(c) && (c.state == Established || c.state == FinWait) && !c.peerClosed
    requires |c.received| + |s.payload| <= RECEIVE_LIMIT && !s.flags.syn
    ensures TookText(c, s, TakeText(c, s, now))
  {
    WrapStep(c.receiveNext + |s.payload|);
  }

  lemma TextHost(h: Host, k: Host, s: Segment)
    requires HostOk(h) && h.phase == Open && Consistent(k.c) && k == h.(c := k.c)
    requires h.c.state == Established || h.c.state == FinWait
    requires k.c.sendNext == h.c.sendNext && k.c.outstanding == h.c.outstanding
    requires k.c.state == (if !s.flags.fin then h.c.state else if h.c.state == Established then CloseWait
                           else if h.c.outstanding.None? then TimeWait else FinWait)
    ensures HostOk(k)
  {
  }

  lemma TextKeeps(h: Host, p: Host, wh: set<Segment>, wp: set<Segment>, s: Segment, now: nat)
    requires Pair(h, p, wh, wp) && s in wp && h.phase == Open && s.sequence == h.c.receiveNext
    requires (h.c.state == Established || h.c.state == FinWait) && !h.c.peerClosed
    requires |h.c.received| + |s.payload| <= RECEIVE_LIMIT
    ensures var r := TakeText(h.c, s, now);
            Pair(h.(c := r.connection), p, wh + OneOrNone(r.reply), wp)
  {
    InOrderPosition(h, p, wh, wp, s);
    TakeTextFields(h.c, s, now);
    TextLands(h, p, wh, wp, s, TakeText(h.c, s, now));
  }

  lemma TextLands(h: Host, p: Host, wh: set<Segment>, wp: set<Segment>, s: Segment, r: Handled)
    requires Pair(h, p, wh, wp) && s in wp && h.phase == Open && s.sequence == h.c.receiveNext
    requires (h.c.state == Established || h.c.state == FinWait) && !h.c.peerClosed
    requires TookText(h.c, s, r)
    ensures Pair(h.(c := r.connection), p, wh + OneOrNone(r.reply), wp)
  {
    var k := h.(c := r.connection);
    TextHost(h, k, s);
    TextExtends(h, p, wh, wp, s, k);
    TextLinkOut(h, k, p, wh, wp, OneOrNone(r.reply));
  }

  /** The outgoing link after text was taken: acknowledgments only grow. */
  lemma TextLinkOut(h: Host, k: Host, p: Host, wh: set<Segment>, wp: set<Segment>, sent: set<Segment>)
    requires Pair(h, p, wh, wp) && h.phase != Fresh && HostOk(k) && Link(p, k, wp)
    requires k == h.(c := k.c) && k.c.sendNext == h.c.sendNext && k.c.outstanding == h.c.outstanding
    requires Taken(h) <= Taken(k) && (h.c.state == Closed ==> k.c.state == Closed)
    requires forall s :: s in sent ==> PureAck(k, s)
    ensures Link(k, p, wh + sent)
  {
    PureAcksOk(k, p, wh, wp, sent);
    OutLinkStays(h, k, p, wh, sent);
  }

  lemma AckHost(h: Host, now: nat)
    requires HostOk(h) && h.phase == Open
    requires h.c.state != Closed && h.c.state != TimeWait && h.c.state != SynSent
    ensures var k := h.(c := Acknowledged(h.c, now)); HostOk(k) && SameStreams(h, k) && k.c.outstanding.None?
  {
  }

  lemma AckKeeps(h: Host, p: Host, wh: set<Segment>, wp: set<Segment>, s: Segment, now: nat)
    requires Pair(h, p, wh, wp) && s in wp && h.phase == Open && s.flags.ack && s.acknowledgment == h.c.sendNext
    requires h.c.state != Closed && h.c.state != TimeWait && h.c.state != SynSent
    requires s.sequence == h.c.receiveNext && !Erases(h, p, s)
    ensures Pair(h.(c := Acknowledged(h.c, now)), p, wh, wp)
  {
    HarmlessAck(h, p, wh, wp, s);
    AckHost(h, now);
    assert wh + {} == wh;
    QuietKeeps(h, h.(c := Acknowledged(h.c, now)), p, wh, wp, {});
  }

  lemma TouchHost(h: Host, now: nat, window: nat)
    requires HostOk(h) && h.phase != Fresh
    ensures var k := h.(c := h.c.(lastActivity := now, peerWindow := window));
            HostOk(k) && SameStreams(h, k)
  {
  }

  lemma TouchKeeps(h: Host, p: Host, wh: set<Segment>, wp: set<Segment>, now: nat, window: nat, sent: set<Segment>)
    requires Pair(h, p, wh, wp) && h.phase != Fresh
    requires var k := h.(c := h.c.(lastActivity := now, peerWindow := window));
             forall s :: s in sent ==> PureAck(k, s)
    ensures Pair(h.(c := h.c.(lastActivity := now, peerWindow := window)), p, wh + sent, wp)
  {
    TouchHost(h, now, window);
    QuietKeeps(h, h.(c := h.c.(lastActivity := now, peerWindow := window)), p, wh, wp, sent);
  }

  /** The rest of an in-order segment, once its acknowledgment has been dealt with. */
  lemma AfterAckKeeps(h: Host, p: Host, wh: set<Segment>, wp: set<Segment>, s: Segment, now: nat)
    requires Pair(h, p, wh, wp) && s in wp && h.phase == Open && s.sequence == h.c.receiveNext
    requires h.synced && (!h.c.peerClosed ==> h.c.state == Established || h.c.state == FinWait)
    ensures var a := h.c.(lastActivity := now, peerWindow := s.window);
            var r := if a.peerClosed then Handled(a, None)
                     else if |a.received| + |s.payload| > RECEIVE_LIMIT then Handled(a, Some(SegmentOf(a, ACK, [])))
                     else TakeText(a, s, now);
            Pair(h.(c := r.connection), p, wh + OneOrNone(r.reply), wp)
  {
    var a := h.c.(lastActivity := now, peerWindow := s.window);
    assert wh + {} == wh;
    if !a.peerClosed && |a.received| + |s.payload| > RECEIVE_LIMIT {
      TouchKeeps(h, p, wh, wp, now, s.window, {SegmentOf(a, ACK, [])});
    } else {
      TouchKeeps(h, p, wh, wp, now, s.window, {});
      if !a.peerClosed {
        TextKeeps(h.(c := a), p, wh, wp, s, now);
      }
    }
  }

  lemma AckedKeeps(h: Host, p: Host, wh: set<Segment>, wp: set<Segment>, s: Segment, now: nat)
    requires Pair(h, p, wh, wp) && s in wp && h.phase == Open && s.flags.ack && s.sequence == h.c.receiveNext
    requires h.c.state != Closed && h.c.state != TimeWait && h.c.state != SynSent && h.c.state != LastAck
    requires s.acknowledgment == h.c.sendNext && !Erases(h, p, s)
    ensures var r := ReceiveInOrder(h.c, s, now);
            Pair(h.(c := r.connection), p, wh + OneOrNone(r.reply), wp)
  {
    AckKeeps(h, p, wh, wp, s, now);
    AckHost(h, now);
    AfterAckKeeps(h.(c := Acknowledged(h.c, now)), p, wh, wp, s, now);
  }

  lemma InOrderKeeps(h: Host, p: Host, wh: set<Segment>, wp: set<Segment>, s: Segment, now: nat)
    requires Pair(h, p, wh, wp) && s in wp && h.phase == Open && s.flags.ack && s.sequence == h.c.receiveNext
    requires h.c.state != Closed && h.c.state != TimeWait && h.c.state != SynSent && !Erases(h, p, s)
    ensures var r := ReceiveInOrder(h.c, s, now);
            Pair(h.(c := r.connection), p, wh + OneOrNone(r.reply), wp)
  {
    if s.acknowledgment == h.c.sendNext {
      if h.c.state == LastAck {
        AckKeeps(h, p, wh, wp, s, now);
        assert wh + {} == wh;
      } else {
        AckedKeeps(h, p, wh, wp, s, now);
      }
    } else if h.c.state == SynReceived {
      assert wh + {} == wh;
    } else {
      AfterAckKeeps(h, p, wh, wp, s, now);
    }
  }

  /** The number after a SYN is stream position 1. */
  lemma AfterSyn(x: Host, y: Host, s: Segment)
    requires SegmentOk(x, y, s) && s.flags.syn
    ensures Wrap32(s.sequence + 1) == At(x.initial, 1)
  {
    AtOfPosition(x.initial, s.sequence);
    AtStep(x.initial, 0, 1);
  }

  /** What the SYN-ACK makes of the active side. */
  ghost predicate Opens(h: Host, k: Host, receiveNext: nat, r: Handled) {
    && k == h.(c := r.connection, synced := true) && HostOk(k)
    && k.c.receiveNext == receiveNext && k.c.received == h.c.received && k.c.peerClosed == h.c.peerClosed
    && k.c.outstanding.None? && k.c.state == Established
    && (r.reply.Some? ==> PureAck(k, r.reply.value))
  }

  lemma EstablishHost(h: Host, s: Segment, now: nat)
    requires HostOk(h) && h.phase == Open && h.c.state == SynSent
    requires s.flags.syn && s.flags.ack && s.acknowledgment == h.c.sendNext
    ensures var r := ReceiveSynSent(h.c, s, now);
            Opens(h, h.(c := r.connection, synced := true), Wrap32(s.sequence + 1), r)
  {
  }

  lemma OpensLinks(h: Host, k: Host, p: Host, wh: set<Segment>, wp: set<Segment>, r: Handled)
    requires Pair(h, p, wh, wp) && h.phase == Open && h.c.state == SynSent && p.phase != Fresh
    requires Opens(h, k, At(p.initial, 1), r) && Taken(p) == Sent(h)
    ensures Pair(k, p, wh + OneOrNone(r.reply), wp)
  {
    assert Taken(k) == 1;
    WireStays(p, p, h, k, wp);
    assert Link(p, k, wp);
    PureAcksOk(k, p, wh, wp, OneOrNone(r.reply));
    OutLinkStays(h, k, p, wh, OneOrNone(r.reply));
  }

  /** The active side completes the handshake. */
  lemma EstablishKeeps(h: Host, p: Host, wh: set<Segment>, wp: set<Segment>, s: Segment, now: nat)
    requires Pair(h, p, wh, wp) && s in wp && h.phase == Open && h.c.state == SynSent
    requires s.flags.syn && s.flags.ack && s.acknowledgment == h.c.sendNext
    ensures var r := ReceiveSynSent(h.c, s, now);
            Pair(h.(c := r.connection, synced := true), p, wh + OneOrNone(r.reply), wp)
  {
    FullAck(h, p, wh, wp, s);
    assert SegmentOk(p, h, s);
    AfterSyn(p, h, s);
    EstablishHost(h, s, now);
    var r := ReceiveSynSent(h.c, s, now);
    OpensLinks(h, h.(c := r.connection, synced := true), p, wh, wp, r);
  }

  /** Segments that are answered without touching either stream. */
  lemma QuietHost(h: Host, s: Segment, now: nat)
    requires HostOk(h) && h.phase == Open && !s.flags.rst && h.c.state != Closed && h.c.state != SynSent
    requires || h.c.state == TimeWait
             || (h.c.state == SynReceived && s.flags.syn && Wrap32(s.sequence + 1) == h.c.receiveNext)
             || s.sequence != h.c.receiveNext
    ensures var e := Receives(h, s, now);
            && HostOk(e.host) && SameStreams(h, e.host) && e.host.c.outstanding == h.c.outstanding
            && forall t :: t in e.sent ==>
                 PureAck(e.host, t) || (h.c.outstanding.Some? && t == h.c.outstanding.value.segment)
  {
  }

  lemma ReceivesKeeps(h: Host, p: Host, wh: set<Segment>, wp: set<Segment>, s: Segment, now: nat)
    requires Pair(h, p, wh, wp) && s in wp && !Erases(h, p, s)
    ensures var e := Receives(h, s, now); Pair(e.host, p, wh + e.sent, wp)
  {
    assert SegmentOk(p, h, s);
    if h.phase != Open || h.c.state == Closed {
      assert Receives(h, s, now) == Effect(h, {}) && wh + {} == wh;
    } else if h.c.state == SynSent {
      SynSentKeeps(h, p, wh, wp, s, now);
    } else if || h.c.state == TimeWait
              || (h.c.state == SynReceived && s.flags.syn && Wrap32(s.sequence + 1) == h.c.receiveNext)
              || s.sequence != h.c.receiveNext {
      QuietHost(h, s, now);
      QuietKeeps(h, Receives(h, s, now).host, p, wh, wp, Receives(h, s, now).sent);
    } else {
      ExpectedKeeps(h, p, wh, wp, s, now);
    }
  }

  lemma SynSentKeeps(h: Host, p: Host, wh: set<Segment>, wp: set<Segment>, s: Segment, now: nat)
    requires Pair(h, p, wh, wp) && s in wp && h.phase == Open && h.c.state == SynSent && !s.flags.rst
    ensures var e := Receives(h, s, now); Pair(e.host, p, wh + e.sent, wp)
  {
    if s.flags.syn && s.flags.ack && s.acknowledgment == h.c.sendNext {
      EstablishKeeps(h, p, wh, wp, s, now);
    } else {
      assert Receives(h, s, now) == Effect(h, {}) && wh + {} == wh;
    }
  }

  lemma ExpectedKeeps(h: Host, p: Host, wh: set<Segment>, wp: set<Segment>, s: Segment, now: nat)
    requires Pair(h, p, wh, wp) && s in wp && h.phase == Open && !s.flags.rst && s.sequence == h.c.receiveNext
    requires h.c.state != Closed && h.c.state != TimeWait && h.c.state != SynSent
    requires !(h.c.state == SynReceived && s.flags.syn && Wrap32(s.sequence + 1) == h.c.receiveNext) && !Erases(h, p, s)
    ensures var e := Receives(h, s, now); Pair(e.host, p, wh + e.sent, wp)
  {
    if s.flags.ack {
      InOrderKeeps(h, p, wh, wp, s, now);
      var r := ReceiveInOrder(h.c, s, now);
      assert Receives(h, s, now) == Effect(h.(c := r.connection), OneOrNone(r.reply));
    } else {
      assert Receives(h, s, now) == Effect(h, {}) && wh + {} == wh;
    }
  }

  lemma ResetHost(h: Host, s: Segment)
    requires HostOk(h) && h.phase == Open
    ensures var k := h.(c := ReceiveReset(h.c, s));
            && HostOk(k) && SameStreams(h, k)
            && (k.c.outstanding == h.c.outstanding || (k.c.outstanding.None? && k.c.state == Closed))
  {
  }

  lemma ResetKeeps(h: Host, p: Host, wh: set<Segment>, wp: set<Segment>, s: Segment)
    requires Pair(h, p, wh, wp) && h.phase == Open
    ensures Pair(h.(c := ReceiveReset(h.c, s)), p, wh, wp)
  {
    ResetHost(h, s);
    QuietKeeps(h, h.(c := ReceiveReset(h.c, s)), p, wh, wp, {});
    assert wh + {} == wh;
  }

  lemma InjectResets(h: Host, s: Segment, now: nat)
    requires HostOk(h) && s.flags.rst
    ensures Receives(h, s, now)
            == Effect(if h.phase == Open && h.c.state != Closed then h.(c := ReceiveReset(h.c, s)) else h, {})
  {
  }

  lemma InjectKeeps(h: Host, p: Host, wh: set<Segment>, wp: set<Segment>, s: Segment, now: nat)
    requires Pair(h, p, wh, wp) && s.flags.rst
    ensures var e := Receives(h, s, now); Pair(e.host, p, wh + e.sent, wp)
  {
    assert wh + {} == wh;
    InjectResets(h, s, now);
    if h.phase == Open && h.c.state != Closed {
      ResetKeeps(h, p, wh, wp, s);
    }
  }

  // ------------------------------------------------------------------ opening and sending

  /** Everything sent before a new segment ends before it. */
  lemma OldSegmentsPrecede(h: Host, k: Host, p: Host, wh: set<Segment>, t: Segment)
    requires WireOk(h, p, wh) && t in wh && k.initial == h.initial && k.c.outstanding.Some?
    requires |h.written| + 2 < W32 && Sent(h) == Sent(k) - Pending(k)
    ensures BeforePending(k, t)
  {
    assert SegmentOk(h, p, t);
  }

  /** `h` becomes `k` by sending `s`, a new segment of positive length, when `p` has taken everything before it. */
  ghost predicate SendsNext(h: Host, k: Host, p: Host, s: Segment) {
    && HostOk(k) && k.phase != Fresh && k.initial == h.initial && k.c.state != Closed
    && k.synced == h.synced && k.hasty == h.hasty && Delivered(k) == Delivered(h) && k.c.peerClosed == h.c.peerClosed
    && (h.synced ==> k.c.receiveNext == h.c.receiveNext)
    && h.written <= k.written && (h.closed ==> k == h.(c := k.c))
    && (p.synced ==> h.phase != Fresh)
    && k.c.outstanding.Some? && k.c.outstanding.value.segment == s
    && SequenceLen(s) > 0 && Sent(k) == Sent(h) + SequenceLen(s) && s.sequence == At(k.initial, Sent(h))
    && (h.phase == Fresh || Reached(p) == Sent(h))
    && SegmentOk(k, p, s)
  }

  lemma NewTextInFlight(h: Host, k: Host, p: Host, wh: set<Segment>, s: Segment)
    requires HostOk(h) && WireOk(h, p, wh) && SendsNext(h, k, p, s)
    ensures WireOk(k, p, wh + {s}) && LastInFlight(k, wh + {s})
  {
    WireStays(h, k, p, p, wh);
    forall t | t in wh + {s} ensures BeforePending(k, t) {
      if t != s {
        OldSegmentsPrecede(h, k, p, wh, t);
      }
    }
  }

  lemma NewTextOut(h: Host, k: Host, p: Host, wh: set<Segment>, s: Segment)
    requires HostOk(h) && Link(h, p, wh) && SendsNext(h, k, p, s)
    ensures Link(k, p, wh + {s})
  {
    NewTextInFlight(h, k, p, wh, s);
  }

  lemma NewTextKeeps(h: Host, k: Host, p: Host, wh: set<Segment>, wp: set<Segment>, s: Segment)
    requires Pair(h, p, wh, wp) && SendsNext(h, k, p, s)
    ensures Pair(k, p, wh + {s}, wp)
  {
    NewTextOut(h, k, p, wh, s);
    InLinkStays(p, h, k, wp);
  }

  lemma DialsKeeps(h: Host, p: Host, wh: set<Segment>, wp: set<Segment>, now: nat)
    requires Pair(h, p, wh, wp)
    ensures var e := Dials(h, now); Pair(e.host, p, wh + e.sent, wp)
  {
    assert wh + {} == wh;
    if h.phase == Fresh {
      var e := Connect(h.initial, now);
      PositionOfAt(h.initial, 0);
      AtStep(h.initial, 0, 1);
      assert At(h.initial, 0) == h.initial;
      NewTextKeeps(h, Dials(h, now).host, p, wh, wp, e.segment);
    }
  }

  /** What a listener becomes on an exact SYN, and what it answers. */
  lemma ListensHost(h: Host, s: Segment, now: nat)
    requires HostOk(h) && h.phase == Fresh
    ensures var e := Accept(h.initial, s, now); var k := h.(phase := Open, c := e.connection, synced := true);
            && HostOk(k) && Sent(k) == 1 && Taken(k) == 1 && Pending(k) == 1 && k.c.state == SynReceived
            && k.c.receiveNext == Wrap32(s.sequence + 1) && Delivered(k) == [] && !k.c.peerClosed
            && k.c.outstanding.Some? && k.c.outstanding.value.segment == e.segment
            && e.segment.flags == SYN_ACK && e.segment.payload == [] && e.segment.sequence == h.initial
            && e.segment.acknowledgment == Wrap32(s.sequence + 1)
  {
    AtStep(h.initial, 0, 1);
    assert At(h.initial, 0) == h.initial;
  }

  lemma ListensLinks(h: Host, k: Host, p: Host, wh: set<Segment>, wp: set<Segment>, reply: Segment)
    requires Pair(h, p, wh, wp) && h.phase == Fresh && wp != {} && HostOk(k)
    requires k == h.(phase := Open, c := k.c, synced := true)
    requires Sent(k) == 1 && Taken(k) == 1 && Pending(k) == 1 && k.c.state == SynReceived
    requires k.c.receiveNext == At(p.initial, 1) && Delivered(k) == [] && !k.c.peerClosed
    requires k.c.outstanding.Some? && k.c.outstanding.value.segment == reply
    requires reply.flags == SYN_ACK && reply.payload == [] && reply.sequence == h.initial
    requires reply.acknowledgment == At(p.initial, 1)
    ensures Pair(k, p, {reply}, wp)
  {
    PositionOfAt(p.initial, 1);
    PositionOfAt(h.initial, 0);
    WireStays(p, p, h, k, wp);
    assert SegmentOk(k, p, reply);
    assert Link(p, k, wp) && Link(k, p, {reply});
  }

  /** The listener's reply to a SYN acknowledges exactly that SYN. */
  lemma ListensKeeps(h: Host, p: Host, wh: set<Segment>, wp: set<Segment>, s: Segment, now: nat)
    requires Pair(h, p, wh, wp) && s in wp && !Erases(h, p, s)
    ensures var e := Listens(h, s, now); Pair(e.host, p, wh + e.sent, wp)
  {
    if h.phase == Fresh && s.flags == SYN {
      var e := Accept(h.initial, s, now);
      assert SegmentOk(p, h, s);
      AfterSyn(p, h, s);
      ListensHost(h, s, now);
      ListensLinks(h, h.(phase := Open, c := e.connection, synced := true), p, wh, wp, e.segment);
      assert wh + {e.segment} == {e.segment};
    } else {
      ReceivesKeeps(h, p, wh, wp, s, now);
    }
  }

  /** What a successful write leaves at the writer. */
  lemma WriteHost(h: Host, payload: seq<bv8>, now: nat)
    requires HostOk(h) && h.phase == Open && |h.written| + |payload| + 2 < W32
    requires TcpSend(h.c, payload, now).Accepted?
    ensures var k := Writes(h, payload, now).host; var s := TcpSend(h.c, payload, now).emitted.segment;
            && !h.closed && HostOk(k) && h.c.state != Closed && h.synced && k.c.state != Closed
            && k == h.(c := k.c, written := h.written + s.payload)
            && k.c.receiveNext == h.c.receiveNext && k.c.peerClosed == h.c.peerClosed && k.c.received == h.c.received
            && h.c.outstanding.None? && k.c.outstanding.Some? && k.c.outstanding.value.segment == s
            && s.flags == ACK_PSH && s.payload != [] && s.sequence == h.c.sendNext
            && s.acknowledgment == h.c.receiveNext
            && Writes(h, payload, now).sent == {s}
  {
    AtStep(h.initial, Sent(h), |payload|);
  }

  lemma WritesKeeps(h: Host, p: Host, wh: set<Segment>, wp: set<Segment>, payload: seq<bv8>, now: nat)
    requires Pair(h, p, wh, wp)
    ensures var e := Writes(h, payload, now); Pair(e.host, p, wh + e.sent, wp)
  {
    if h.phase == Open && |h.written| + |payload| + 2 < W32 && TcpSend(h.c, payload, now).Accepted? {
      var s := TcpSend(h.c, payload, now).emitted.segment;
      WriteHost(h, payload, now);
      SentTextPosition(h, p, wp, s);
      WriteLands(h, Writes(h, payload, now).host, p, wh, wp, s);
    } else {
      assert wh + {} == wh;
    }
  }

  lemma WrittenTextOk(h: Host, k: Host, p: Host, s: Segment)
    requires k == h.(c := k.c, written := h.written + s.payload) && h.phase == Open && h.synced && !h.closed
    requires Taken(k) == Taken(h) && s.flags == ACK_PSH && s.payload != [] && s.sequence < W32
    requires Position(h.initial, s.sequence) == Sent(h)
    requires s.acknowledgment < W32 && Position(p.initial, s.acknowledgment) == Taken(h)
    ensures SegmentOk(k, p, s)
  {
    assert s.payload == k.written[Sent(h) - 1..Sent(h) - 1 + |s.payload|];
  }

  /** A write occupies the positions after everything sent before. */
  lemma WriteLands(h: Host, k: Host, p: Host, wh: set<Segment>, wp: set<Segment>, s: Segment)
    requires Pair(h, p, wh, wp) && h.phase == Open && !h.closed && HostOk(k) && h.c.state != Closed
    requires k == h.(c := k.c, written := h.written + s.payload) && k.c.state != Closed && h.synced
    requires k.c.receiveNext == h.c.receiveNext && k.c.peerClosed == h.c.peerClosed && k.c.received == h.c.received
    requires h.c.outstanding.None? && k.c.outstanding.Some? && k.c.outstanding.value.segment == s
    requires s.flags == ACK_PSH && s.payload != [] && s.sequence == h.c.sendNext
    requires Position(h.initial, s.sequence) == Sent(h)
    requires s.acknowledgment < W32 && Position(p.initial, s.acknowledgment) == Taken(h)
    ensures Pair(k, p, wh + {s}, wp)
  {
    WrittenTextOk(h, k, p, s);
    NewTextKeeps(h, k, p, wh, wp, s);
  }

  /** What a successful close leaves at the closer. */
  lemma ShutHost(h: Host, now: nat)
    requires HostOk(h) && h.phase == Open && TcpClose(h.c, now).Accepted?
    ensures var k := Shuts(h, now).host; var s := TcpClose(h.c, now).emitted.segment;
            && !h.closed && HostOk(k) && h.c.state != Closed && h.synced && k.c.state != Closed
            && k == h.(c := k.c, closed := true)
            && k.c.receiveNext == h.c.receiveNext && k.c.peerClosed == h.c.peerClosed && k.c.received == h.c.received
            && h.c.outstanding.None? && k.c.outstanding.Some? && k.c.outstanding.value.segment == s
            && s.flags == ACK_FIN && s.payload == [] && s.sequence == h.c.sendNext
            && s.acknowledgment == h.c.receiveNext
            && Shuts(h, now).sent == {s}
  {
    AtStep(h.initial, Sent(h), 1);
  }

  lemma ShutsKeeps(h: Host, p: Host, wh: set<Segment>, wp: set<Segment>, now: nat)
    requires Pair(h, p, wh, wp)
    ensures var e := Shuts(h, now); Pair(e.host, p, wh + e.sent, wp)
  {
    if h.phase == Open && TcpClose(h.c, now).Accepted? {
      var s := TcpClose(h.c, now).emitted.segment;
      ShutHost(h, now);
      SentTextPosition(h, p, wp, s);
      CloseLands(h, Shuts(h, now).host, p, wh, wp, s);
    } else {
      assert wh + {} == wh;
    }
  }

  /** A segment built now starts at the end of the sent stream and acknowledges what was taken. */
  lemma SentTextPosition(h: Host, p: Host, wp: set<Segment>, s: Segment)
    requires HostOk(h) && HostOk(p) && Link(p, h, wp) && h.phase != Fresh && h.synced
    requires s.sequence == h.c.sendNext && s.acknowledgment == h.c.receiveNext
    ensures Position(h.initial, s.sequence) == Sent(h)
    ensures s.acknowledgment < W32 && Position(p.initial, s.acknowledgment) == Taken(h)
  {
    PositionOfAt(h.initial, Sent(h));
    PositionOfAt(p.initial, Taken(h));
  }

  /** The FIN occupies one position after the last written byte. */
  lemma CloseLands(h: Host, k: Host, p: Host, wh: set<Segment>, wp: set<Segment>, s: Segment)
    requires Pair(h, p, wh, wp) && h.phase == Open && !h.closed && HostOk(k) && h.c.state != Closed
    requires k == h.(c := k.c, closed := true) && k.c.state != Closed && h.synced
    requires k.c.receiveNext == h.c.receiveNext && k.c.peerClosed == h.c.peerClosed && k.c.received == h.c.received
    requires h.c.outstanding.None? && k.c.outstanding.Some? && k.c.outstanding.value.segment == s
    requires s.flags == ACK_FIN && s.payload == [] && s.sequence == h.c.sendNext
    requires Position(h.initial, s.sequence) == Sent(h)
    requires s.acknowledgment < W32 && Position(p.initial, s.acknowledgment) == Taken(h)
    ensures Pair(k, p, wh + {s}, wp)
  {
    NewTextKeeps(h, k, p, wh, wp, s);
  }

  lemma DrainHost(h: Host)
    requires HostOk(h) && h.phase == Open
    ensures var e := Drains(h);
            && HostOk(e.host) && SameStreams(h, e.host) && e.host.c.outstanding == h.c.outstanding
            && forall s :: s in e.sent ==> PureAck(e.host, s)
  {
    assert Delivered(Drains(h).host) == Delivered(h);
  }

  lemma DrainsKeeps(h: Host, p: Host, wh: set<Segment>, wp: set<Segment>)
    requires Pair(h, p, wh, wp)
    ensures var e := Drains(h); Pair(e.host, p, wh + e.sent, wp)
  {
    assert wh + {} == wh;
    if h.phase == Open {
      DrainHost(h);
      QuietKeeps(h, Drains(h).host, p, wh, wp, Drains(h).sent);
    }
  }

  lemma TicksKeeps(h: Host, p: Host, wh: set<Segment>, wp: set<Segment>, now: nat)
    requires Pair(h, p, wh, wp)
    ensures var e := Ticks(h, now); Pair(e.host, p, wh + e.sent, wp)
  {
    assert wh + {} == wh;
    if h.phase == Open {
      if IsExpired(h.c, now) {
        VanishKeeps(h, p, wh, wp);
      } else {
        ResendKeeps(h, p, wh, wp, now);
      }
    }
  }

  lemma ResendFields(c: Connection, now: nat)
    ensures var r := Resend(c, now); var d := r.connection;
            && d == c.(state := d.state, outstanding := d.outstanding, retransmissions := d.retransmissions)
            && (d.state == c.state || d.state == Closed)
            && d.outstanding.Some? == c.outstanding.Some?
            && (d.outstanding.Some? ==> d.outstanding.value.segment == c.outstanding.value.segment)
            && (r.reply.Some? ==> c.outstanding.Some? && r.reply.value == c.outstanding.value.segment)
  {
  }

  lemma ResentHost(h: Host, d: Connection)
    requires HostOk(h) && h.phase == Open && h.c.state != Closed && Consistent(d)
    requires d == h.c.(state := d.state, outstanding := d.outstanding, retransmissions := d.retransmissions)
    requires (d.state == h.c.state || d.state == Closed) && d.outstanding.Some? == h.c.outstanding.Some?
    requires d.outstanding.Some? ==> d.outstanding.value.segment == h.c.outstanding.value.segment
    ensures HostOk(h.(c := d)) && SameStreams(h, h.(c := d))
  {
  }

  lemma ResendConsistent(c: Connection, now: nat)
    requires Consistent(c)
    ensures Consistent(Resend(c, now).connection)
  {
  }

  lemma ResendHost(h: Host, now: nat)
    requires HostOk(h) && h.phase == Open && h.c.state != Closed
    ensures var r := Resend(h.c, now); var k := h.(c := r.connection);
            && HostOk(k) && SameStreams(h, k)
            && k.c.outstanding.Some? == h.c.outstanding.Some?
            && (k.c.outstanding.Some? ==> k.c.outstanding.value.segment == h.c.outstanding.value.segment)
            && (r.reply.Some? ==> h.c.outstanding.Some? && r.reply.value == h.c.outstanding.value.segment)
  {
    ResendFields(h.c, now);
    ResendConsistent(h.c, now);
    ResentHost(h, Resend(h.c, now).connection);
  }

  lemma ResendKeeps(h: Host, p: Host, wh: set<Segment>, wp: set<Segment>, now: nat)
    requires Pair(h, p, wh, wp) && h.phase == Open && h.c.state != Closed
    ensures var r := Resend(h.c, now); Pair(h.(c := r.connection), p, wh + OneOrNone(r.reply), wp)
  {
    var r := Resend(h.c, now);
    ResendHost(h, now);
    QuietKeeps(h, h.(c := r.connection), p, wh, wp, OneOrNone(r.reply));
  }

  lemma VanishKeeps(h: Host, p: Host, wh: set<Segment>, wp: set<Segment>)
    requires Pair(h, p, wh, wp) && h.phase == Open
    ensures Pair(h.(phase := Gone), p, wh, wp)
  {
    var k := h.(phase := Gone);
    InLinkStays(p, h, k, wp);
    OutLinkStays(h, k, p, wh, {});
    assert wh + {} == wh;
  }

  // --------------------------------------------------------------------------- whole runs

  /** The action delivers an acknowledgment that erases what its sender has not taken. */
  ghost predicate Erasing(n: Net, action: Action) {
    action.Deliver? && !action.toA && action.s in n.fromA && Erases(n.b, n.a, action.s)
  }

  ghost predicate NeverErases(n: Net, actions: seq<Action>)
    decreases |actions|
  {
    actions == [] || (!Erasing(n, actions[0]) && NeverErases(Step(n, actions[0]), actions[1..]))
  }

  lemma ListenerStays(n: Net, action: Action)
    requires Listener(n.b) && HostOk(n.b)
    ensures Listener(Step(n, action).b)
  {
  }

  lemma StepOfA(n: Net, action: Action)
    requires Invariant(n) && !Erasing(n, action)
    requires match action
             case Dial => true
             case Deliver(toA, _) => toA
             case Inject(toA, _) => toA
             case Write(a, _) => a
             case Shut(a) => a
             case Drain(a) => a
             case Timer(a) => a
             case Vanish(a) => a
             case Pass(_) => false
    ensures Pair(Step(n, action).a, Step(n, action).b, Step(n, action).fromA, Step(n, action).fromB)
  {
    match action {
      case Dial => DialsKeeps(n.a, n.b, n.fromA, n.fromB, n.now);
      case Deliver(_, s) => if s in n.fromB { ReceivesKeeps(n.a, n.b, n.fromA, n.fromB, s, n.now); }
      case Inject(_, s) => if s.flags.rst { InjectKeeps(n.a, n.b, n.fromA, n.fromB, s, n.now); }
      case Write(_, payload) => WritesKeeps(n.a, n.b, n.fromA, n.fromB, payload, n.now);
      case Shut(_) => ShutsKeeps(n.a, n.b, n.fromA, n.fromB, n.now);
      case Drain(_) => DrainsKeeps(n.a, n.b, n.fromA, n.fromB);
      case Timer(_) => TicksKeeps(n.a, n.b, n.fromA, n.fromB, n.now);
      case Vanish(_) => if n.a.phase == Open { VanishKeeps(n.a, n.b, n.fromA, n.fromB); }
    }
  }

  lemma StepOfB(n: Net, action: Action)
    requires Invariant(n) && !Erasing(n, action)
    requires match action
             case Dial => false
             case Deliver(toA, _) => !toA
             case Inject(toA, _) => !toA
             case Write(a, _) => !a
             case Shut(a) => !a
             case Drain(a) => !a
             case Timer(a) => !a
             case Vanish(a) => !a
             case Pass(_) => false
    ensures Pair(Step(n, action).a, Step(n, action).b, Step(n, action).fromA, Step(n, action).fromB)
  {
    match action {
      case Deliver(_, s) => if s in n.fromA { ListensKeeps(n.b, n.a, n.fromB, n.fromA, s, n.now); }
      case Inject(_, s) => if s.flags.rst { InjectKeeps(n.b, n.a, n.fromB, n.fromA, s, n.now); }
      case Write(_, payload) => WritesKeeps(n.b, n.a, n.fromB, n.fromA, payload, n.now);
      case Shut(_) => ShutsKeeps(n.b, n.a, n.fromB, n.fromA, n.now);
      case Drain(_) => DrainsKeeps(n.b, n.a, n.fromB, n.fromA);
      case Timer(_) => TicksKeeps(n.b, n.a, n.fromB, n.fromA, n.now);
      case Vanish(_) => if n.b.phase == Open { VanishKeeps(n.b, n.a, n.fromB, n.fromA); }
    }
  }

  lemma StepKeeps(n: Net, action: Action)
    requires Invariant(n) && !Erasing(n, action)
    ensures Invariant(Step(n, action))
  {
    ListenerStays(n, action);
    match action {
      case Dial => StepOfA(n, action);
      case Deliver(toA, _) => if toA { StepOfA(n, action); } else { StepOfB(n, action); }
      case Inject(toA, _) => if toA { StepOfA(n, action); } else { StepOfB(n, action); }
      case Write(a, _) => if a { StepOfA(n, action); } else { StepOfB(n, action); }
      case Shut(a) => if a { StepOfA(n, action); } else { StepOfB(n, action); }
      case Drain(a) => if a { StepOfA(n, action); } else { StepOfB(n, action); }
      case Timer(a) => if a { StepOfA(n, action); } else { StepOfB(n, action); }
      case Vanish(a) => if a { StepOfA(n, action); } else { StepOfB(n, action); }
      case Pass(_) =>
    }
  }

  lemma {:induction false} RunKeeps(n: Net, actions: seq<Action>)
    requires Invariant(n) && NeverErases(n, actions)
    ensures Invariant(Run(n, actions))
    decreases |actions|
  {
    if actions != [] {
      StepKeeps(n, actions[0]);
      RunKeeps(Step(n, actions[0]), actions[1..]);
    }
  }

  lemma Reachable(n: Net, actions: seq<Action>)
    requires Initial(n) && NeverErases(n, actions)
    ensures Invariant(Run(n, actions))
  {
    assert Invariant(n);
    RunKeeps(n, actions);
  }

  // ---------------------------------------------------------------------------- theorems

  ghost predicate Alive(h: Host) {
    h.phase != Fresh && h.c.state != Closed
  }

  /** What `y` received of `x`'s stream is a prefix, short of at most the outstanding payload. */
  ghost predicate OnlyOutstandingMissing(x: Host, y: Host) {
    && Delivered(y) <= x.written
    && (Alive(x) && x.c.outstanding.None? ==> Delivered(y) == x.written)
    && (Alive(x) && x.c.outstanding.Some? ==>
          || Delivered(y) == x.written
          || Delivered(y) + x.c.outstanding.value.segment.payload == x.written)
  }

  /** Everything `y` lacks of `x`'s stream is in `x`'s retransmission slot, its FIN included. */
  ghost predicate Kept(x: Host, y: Host) {
    OnlyOutstandingMissing(x, y) && (Alive(x) && x.c.outstanding.None? && x.closed ==> y.c.peerClosed)
  }

  ghost predicate Safe(n: Net) {
    Kept(n.a, n.b) && Kept(n.b, n.a)
  }

  /** The outstanding payload is the last stretch of what was written. */
  lemma OutstandingIsLast(x: Host, y: Host, wire: set<Segment>)
    requires HostOk(x) && LastInFlight(x, wire) && WireOk(x, y, wire) && x.c.outstanding.Some?
    ensures var s := x.c.outstanding.value.segment; var p := Sent(x) - Pending(x);
            && (s.payload != [] ==> p >= 1 && p - 1 + |s.payload| == |x.written| && s.payload == x.written[p - 1..])
            && (s.flags.fin ==> x.closed) && (x.closed ==> p >= 1 && s.flags.fin)
  {
    var s := x.c.outstanding.value.segment;
    assert SegmentOk(x, y, s);
    PositionOfAt(x.initial, Sent(x) - Pending(x));
  }

  lemma MissingSuffix(x: Host, y: Host, wire: set<Segment>)
    requires HostOk(x) && HostOk(y) && Link(x, y, wire)
    ensures Kept(x, y)
  {
    if Alive(x) && x.c.outstanding.Some? {
      OutstandingIsLast(x, y, wire);
      var s := x.c.outstanding.value.segment;
      if s.payload != [] && Delivered(y) != x.written {
        assert |Delivered(y)| == Sent(x) - Pending(x) - 1;
        assert Delivered(y) == x.written[..Sent(x) - Pending(x) - 1];
      }
    }
  }

  lemma InvariantIsSafe(n: Net)
    requires Invariant(n)
    ensures Safe(n)
  {
    MissingSuffix(n.a, n.b, n.fromA);
    MissingSuffix(n.b, n.a, n.fromB);
  }

  /**
   Stream safety. However segments are lost, duplicated, reordered or reset, what one side has
   received is a prefix of what the other wrote; while the writer is alive the missing rest is
   empty or exactly its outstanding payload, and nothing is missing when nothing is outstanding.
   */
  lemma StreamSafety(n: Net, actions: seq<Action>)
    requires Initial(n) && NeverErases(n, actions)
    ensures Safe(Run(n, actions))
  {
    Reachable(n, actions);
    InvariantIsSafe(Run(n, actions));
  }

  ghost predicate BothComplete(x: Host, y: Host) {
    x.c.peerClosed && x.closed && y.c.peerClosed && y.closed
    && Delivered(y) == x.written && Delivered(x) == y.written
  }

  lemma TimeWaitSide(x: Host, y: Host, wx: set<Segment>, wy: set<Segment>)
    requires Pair(x, y, wx, wy) && x.c.state == TimeWait
    ensures BothComplete(x, y)
  {
    MissingSuffix(x, y, wx);
  }

  /** Graceful close loses nothing: TimeWait means both FINs were accepted and both streams are complete. */
  lemma GracefulClose(n: Net, actions: seq<Action>)
    requires Initial(n) && NeverErases(n, actions)
    ensures var r := Run(n, actions);
            r.a.c.state == TimeWait || r.b.c.state == TimeWait ==> BothComplete(r.a, r.b)
  {
    Reachable(n, actions);
    var r := Run(n, actions);
    if r.a.c.state == TimeWait { TimeWaitSide(r.a, r.b, r.fromA, r.fromB); }
    if r.b.c.state == TimeWait { TimeWaitSide(r.b, r.a, r.fromB, r.fromA); }
  }

  // ---------------------------------------------------------------- exactly when it is safe

  /** What an erasing segment leaves at its receiver: nothing to send again. */
  lemma ErasedHost(h: Host, p: Host, s: Segment, now: nat)
    requires HostOk(h) && Erases(h, p, s)
    ensures var k := Listens(h, s, now).host;
            Alive(k) && k.c.outstanding.None? && k.written == h.written && k.closed == h.closed
  {
    var c := ReceiveInOrder(h.c, s, now).connection;
    assert Receive(h.c, s, now).connection == c;
    assert c.outstanding.None? && c.state != Closed;
  }

  /** Something other than the SYN is outstanding, so there is text or a FIN to lose. */
  lemma SomethingToLose(h: Host, p: Host, wh: set<Segment>, s: Segment)
    requires HostOk(h) && Link(h, p, wh) && Erases(h, p, s)
    ensures h.written != [] || h.closed
  {
    assert SegmentOk(h, p, h.c.outstanding.value.segment);
  }

  lemma ErasingBreaks(n: Net, action: Action)
    requires Invariant(n) && Erasing(n, action)
    ensures !Kept(Step(n, action).b, Step(n, action).a)
  {
    ErasedHost(n.b, n.a, action.s, n.now);
    SomethingToLose(n.b, n.a, n.fromB, action.s);
  }

  lemma PrefixOfRun(n: Net, actions: seq<Action>, k: nat)
    requires k < |actions|
    ensures Run(n, actions[..k + 1]) == Run(Step(n, actions[0]), actions[1..][..k])
  {
    assert actions[..k + 1] == [actions[0]] + actions[1..][..k];
    RunCons(n, actions[0], actions[1..][..k]);
  }

  lemma RunCons(n: Net, x: Action, rest: seq<Action>)
    ensures Run(n, [x] + rest) == Run(Step(n, x), rest)
  {
    assert ([x] + rest)[1..] == rest;
  }

  ghost predicate SafeAt(n: Net, actions: seq<Action>, k: nat)
    requires k <= |actions|
  {
    Safe(Run(n, actions[..k]))
  }

  lemma SafeAtNext(n: Net, actions: seq<Action>, k: nat)
    requires k < |actions|
    ensures SafeAt(n, actions, k + 1) == SafeAt(Step(n, actions[0]), actions[1..], k)
  {
    PrefixOfRun(n, actions, k);
  }

  lemma {:induction false} NeverErasesIsSafe(n: Net, actions: seq<Action>, k: nat)
    requires Invariant(n) && NeverErases(n, actions) && k <= |actions|
    ensures SafeAt(n, actions, k)
    decreases k
  {
    if k == 0 {
      InvariantIsSafe(n);
    } else {
      StepKeeps(n, actions[0]);
      NeverErasesIsSafe(Step(n, actions[0]), actions[1..], k - 1);
      SafeAtNext(n, actions, k - 1);
    }
  }

  lemma {:induction false} ErasesIsUnsafe(n: Net, actions: seq<Action>) returns (k: nat)
    requires Invariant(n) && !NeverErases(n, actions)
    ensures k <= |actions| && !SafeAt(n, actions, k)
    decreases |actions|
  {
    if Erasing(n, actions[0]) {
      ErasingBreaks(n, actions[0]);
      k := 0;
    } else {
      StepKeeps(n, actions[0]);
      k := ErasesIsUnsafe(Step(n, actions[0]), actions[1..]);
    }
    SafeAtNext(n, actions, k);
    k := k + 1;
  }

  /** A run is safe throughout exactly when it never delivers an erasing acknowledgment. */
  lemma SafeExactly(n: Net, actions: seq<Action>)
    requires Initial(n)
    ensures (forall k :: 0 <= k <= |actions| ==> SafeAt(n, actions, k)) <==> NeverErases(n, actions)
  {
    if NeverErases(n, actions) {
      forall k | 0 <= k <= |actions| ensures SafeAt(n, actions, k) {
        NeverErasesIsSafe(n, actions, k);
      }
    } else {
      var k := ErasesIsUnsafe(n, actions);
    }
  }

  // ------------------------------------------------------------ conditions known beforehand

  /** Erasing needs the listener to stand at sequence number 0, with more than its SYN sent. */
  lemma ErasingStandsAtZero(n: Net, action: Action)
    requires Invariant(n) && Erasing(n, action)
    ensures Sent(n.b) == Position(n.b.initial, 0) && Sent(n.b) >= 2
  {
    PositionOfAt(n.b.initial, Sent(n.b));
    SomethingToLose(n.b, n.a, n.fromB, action.s);
  }

  lemma SentGrows(n: Net, action: Action)
    ensures Sent(n.b) <= Sent(Step(n, action).b) && Step(n, action).b.initial == n.b.initial
  {
  }

  lemma {:induction false} SentGrowsAlong(n: Net, actions: seq<Action>)
    ensures Sent(n.b) <= Sent(Run(n, actions).b)
    decreases |actions|
  {
    if actions != [] {
      SentGrows(n, actions[0]);
      SentGrowsAlong(Step(n, actions[0]), actions[1..]);
    }
  }

  lemma {:induction false} ShortRunNeverErases(n: Net, actions: seq<Action>)
    requires Invariant(n)
    requires Position(n.b.initial, 0) < 2 || Sent(Run(n, actions).b) < Position(n.b.initial, 0)
    ensures NeverErases(n, actions)
    decreases |actions|
  {
    if actions != [] {
      if Erasing(n, actions[0]) {
        ErasingStandsAtZero(n, actions[0]);
        SentGrowsAlong(n, actions);
      } else {
        StepKeeps(n, actions[0]);
        SentGrows(n, actions[0]);
        ShortRunNeverErases(Step(n, actions[0]), actions[1..]);
      }
    }
  }

  /**
   No read can hurt while the listener's stream has not reached sequence number 0, nor ever
   when its initial number is 0 or the last before 0.
   */
  lemma ShortStreamsAreSafe(n: Net, actions: seq<Action>)
    requires Initial(n)
    requires Position(n.b.initial, 0) < 2 || Sent(Run(n, actions).b) < Position(n.b.initial, 0)
    ensures forall k :: 0 <= k <= |actions| ==> SafeAt(n, actions, k)
  {
    ShortRunNeverErases(n, actions);
    SafeExactly(n, actions);
  }

  /** The application of `a` reads only once its connection knows its peer's numbers. */
  ghost predicate ReadsLate(n: Net, actions: seq<Action>)
    decreases |actions|
  {
    actions == [] ||
    ((actions[0] == Drain(true) && n.a.phase == Open ==> n.a.synced) && ReadsLate(Step(n, actions[0]), actions[1..]))
  }

  lemma {:induction false} LateReadsNeverErase(n: Net, actions: seq<Action>)
    requires !n.a.hasty && ReadsLate(n, actions)
    ensures NeverErases(n, actions)
    decreases |actions|
  {
    if actions != [] {
      assert !Step(n, actions[0]).a.hasty;
      LateReadsNeverErase(Step(n, actions[0]), actions[1..]);
    }
  }

  /** Without reads before the handshake, every run is safe throughout. */
  lemma LateReadsAreSafe(n: Net, actions: seq<Action>)
    requires Initial(n) && ReadsLate(n, actions)
    ensures forall k :: 0 <= k <= |actions| ==> SafeAt(n, actions, k)
  {
    LateReadsNeverErase(n, actions);
    SafeExactly(n, actions);
  }

  // -------------------------------------------------------- reading before the handshake

  ghost const EARLY: Net :=
    Net(Host(Fresh, 100, NewConnection(100, 0), [], false, [], false, false),
        Host(Fresh, W32 - 6, NewConnection(W32 - 6, 0), [], false, [], false, false), {}, {}, 0)
  ghost const EARLY_SYN := Segment(100, 0, SYN, 65535, [])
  ghost const EARLY_READ := Segment(101, 0, ACK, 65535, [])
  ghost const EARLY_SYN_ACK := Segment(W32 - 6, 101, SYN_ACK, 65535, [])
  ghost const EARLY_ACK := Segment(101, W32 - 5, ACK, 65535, [])
  ghost const EARLY_TEXT: seq<bv8> := [1, 2, 3, 4, 5]

  lemma EarlyReadHandshake(n: Net)
    requires n == Step(Step(Step(EARLY, Dial), Drain(true)), Deliver(false, EARLY_SYN))
    ensures EARLY_READ in n.fromA && EARLY_SYN_ACK in n.fromB
    ensures n.a.phase == Open && n.a.c.state == SynSent && n.a.c.sendNext == 101 && Delivered(n.a) == []
    ensures n.b.phase == Open && n.b.c.state == SynReceived && n.b.written == [] && n.b.c.receiveNext == 101
    ensures n.b.c.sendNext == W32 - 5 && n.b.c.received == [] && !n.b.c.peerClosed
    ensures n.a.c.received == []
  {
    var n1 := Step(EARLY, Dial);
    assert EARLY_SYN in n1.fromA && n1.a.c.state == SynSent && n1.a.c.sendNext == 101;
    var n2 := Step(n1, Drain(true));
    assert EARLY_READ in n2.fromA && EARLY_SYN in n2.fromA;
  }

  /** Connected, with the early acknowledgment in flight and the listener five bytes short of number 0. */
  ghost predicate EarlyReadReady(n: Net) {
    && EARLY_READ in n.fromA && Delivered(n.a) == []
    && n.b.phase == Open && n.b.c.state == Established && n.b.written == [] && n.b.c.receiveNext == 101
    && n.b.c.sendNext == W32 - 5 && n.b.c.received == [] && !n.b.c.peerClosed
    && n.b.c.outstanding == None && n.b.c.peerWindow == 65535
  }

  lemma EarlyReadOpens(n: Net, r: Net)
    requires EARLY_READ in n.fromA && EARLY_SYN_ACK in n.fromB
    requires n.a.phase == Open && n.a.c.state == SynSent && n.a.c.sendNext == 101 && Delivered(n.a) == []
    requires n.b.phase == Open && n.b.c.state == SynReceived && n.b.written == [] && n.b.c.receiveNext == 101
    requires n.b.c.sendNext == W32 - 5 && n.b.c.received == [] && !n.b.c.peerClosed && n.a.c.received == []
    requires r == Step(Step(n, Deliver(true, EARLY_SYN_ACK)), Deliver(false, EARLY_ACK))
    ensures EarlyReadReady(r)
  {
    var m := Step(n, Deliver(true, EARLY_SYN_ACK));
    assert EARLY_ACK in m.fromA && Delivered(m.a) == [] && m.b == n.b;
  }

  lemma EarlyReadErases(n: Net, r: Net)
    requires EarlyReadReady(n)
    requires r == Step(Step(n, Write(false, EARLY_TEXT)), Deliver(false, EARLY_READ))
    ensures !Safe(r)
  {
    var m := Step(n, Write(false, EARLY_TEXT));
    assert m.b.c.sendNext == 0 && m.b.written == EARLY_TEXT && m.a == n.a;
    assert Alive(r.b) && r.b.c.outstanding == None && r.b.written == EARLY_TEXT && Delivered(r.a) == [];
  }

  lemma RunSeven(n: Net, a1: Action, a2: Action, a3: Action, a4: Action, a5: Action, a6: Action, a7: Action)
    ensures Run(n, [a1] + ([a2] + ([a3] + ([a4] + ([a5] + ([a6] + [a7]))))))
            == Step(Step(Step(Step(Step(Step(Step(n, a1), a2), a3), a4), a5), a6), a7)
  {
    var n1 := Step(n, a1);
    var n2 := Step(n1, a2);
    var n3 := Step(n2, a3);
    var n4 := Step(n3, a4);
    var n5 := Step(n4, a5);
    var n6 := Step(n5, a6);
    RunCons(n, a1, [a2] + ([a3] + ([a4] + ([a5] + ([a6] + [a7])))));
    RunCons(n1, a2, [a3] + ([a4] + ([a5] + ([a6] + [a7]))));
    RunCons(n2, a3, [a4] + ([a5] + ([a6] + [a7])));
    RunCons(n3, a4, [a5] + ([a6] + [a7]));
    RunCons(n4, a5, [a6] + [a7]);
    RunCons(n5, a6, [a7]);
    RunCons(n6, a7, []);
    assert [a7] + [] == [a7];
  }

  lemma EarlyReadInitial()
    ensures Initial(EARLY)
  {
  }

  lemma EarlyReadRun() returns (actions: seq<Action>)
    ensures !Safe(Run(EARLY, actions))
  {
    var syn, synAck := Deliver(false, EARLY_SYN), Deliver(true, EARLY_SYN_ACK);
    var ack, read := Deliver(false, EARLY_ACK), Deliver(false, EARLY_READ);
    var write := Write(false, EARLY_TEXT);
    actions := [Dial] + ([Drain(true)] + ([syn] + ([synAck] + ([ack] + ([write] + [read])))));
    RunSeven(EARLY, Dial, Drain(true), syn, synAck, ack, write, read);
    var n := EarlyReadRuns(syn, synAck, ack);
    EarlyReadErases(n, Run(EARLY, actions));
  }

  lemma EarlyReadRuns(syn: Action, synAck: Action, ack: Action) returns (n: Net)
    requires syn == Deliver(false, EARLY_SYN) && synAck == Deliver(true, EARLY_SYN_ACK)
    requires ack == Deliver(false, EARLY_ACK)
    ensures n == Step(Step(Step(Step(Step(EARLY, Dial), Drain(true)), syn), synAck), ack)
    ensures EarlyReadReady(n)
  {
    var n3 := Step(Step(Step(EARLY, Dial), Drain(true)), syn);
    n := Step(Step(n3, synAck), ack);
    EarlyReadHandshake(n3);
    EarlyReadOpens(n3, n);
  }

  /**
   Reading in SynSent is not truthful: the window update acknowledges sequence 0. Delivered
   late, to a peer whose next sequence number happens to be 0, it erases unreceived data.
   */
  lemma EarlyReadLosesTrack()
    ensures exists n: Net, actions: seq<Action> ::
              Initial(n) && !Safe(Run(n, actions))
  {
    EarlyReadInitial();
    var actions := EarlyReadRun();
  }

  // ---------------------------------------------------------------------------- lifecycle

  ghost function Stage(h: Host): nat {
    match h.phase
    case Fresh => 0
    case Open => Rank(h.c.state)
    case Gone => 6
  }

  ghost predicate Sound(h: Host) {
    Consistent(h.c)
  }

  ghost predicate Forward(h: Host, e: Effect) {
    Sound(e.host) && Stage(h) <= Stage(e.host)
  }

  lemma SideMovesForward(h: Host, payload: seq<bv8>, now: nat)
    requires Sound(h)
    ensures Forward(h, Writes(h, payload, now)) && Forward(h, Shuts(h, now)) && Forward(h, Drains(h))
  {
    OperationsMoveForward(h.c, payload, now);
  }

  lemma SideTicksForward(h: Host, now: nat)
    requires Sound(h)
    ensures Forward(h, Ticks(h, now))
  {
    OperationsMoveForward(h.c, [], now);
  }

  lemma SideReceivesForward(h: Host, s: Segment, now: nat)
    requires Sound(h)
    ensures Forward(h, Receives(h, s, now)) && Forward(h, Listens(h, s, now)) && Forward(h, Dials(h, now))
  {
    ReceiveMovesForward(h.c, s, now);
    ConnectIsConsistent(h.initial, now);
    AcceptIsConsistent(h.initial, s, now);
  }

  lemma StepMovesSide(n: Net, action: Action, a: bool)
    requires Sound(if a then n.a else n.b)
    ensures var h, r := if a then n.a else n.b, if a then Step(n, action).a else Step(n, action).b;
            Sound(r) && Stage(h) <= Stage(r)
  {
    var h := if a then n.a else n.b;
    match action {
      case Dial => SideReceivesForward(h, Segment(0, 0, ACK, 0, []), n.now);
      case Deliver(_, s) => SideReceivesForward(h, s, n.now);
      case Inject(_, s) => SideReceivesForward(h, s, n.now);
      case Write(_, payload) => SideMovesForward(h, payload, n.now);
      case Shut(_) => SideMovesForward(h, [], n.now);
      case Drain(_) => SideMovesForward(h, [], n.now);
      case Timer(_) => SideTicksForward(h, n.now);
      case Vanish(_) =>
      case Pass(_) =>
    }
  }

  lemma StepMovesForward(n: Net, action: Action)
    requires Sound(n.a) && Sound(n.b)
    ensures var r := Step(n, action);
            Sound(r.a) && Sound(r.b) && Stage(n.a) <= Stage(r.a) && Stage(n.b) <= Stage(r.b)
  {
    StepMovesSide(n, action, true);
    StepMovesSide(n, action, false);
  }

  /** Along every run, neither side's lifecycle ever goes back. */
  lemma {:induction false} LifecycleMovesForward(n: Net, actions: seq<Action>)
    requires Sound(n.a) && Sound(n.b)
    ensures var r := Run(n, actions);
            Sound(r.a) && Sound(r.b) && Stage(n.a) <= Stage(r.a) && Stage(n.b) <= Stage(r.b)
    decreases |actions|
  {
    if actions != [] {
      StepMovesForward(n, actions[0]);
      LifecycleMovesForward(Step(n, actions[0]), actions[1..]);
    }
  }
}
