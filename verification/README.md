# Verified models of the RIOS protocol engines

RIOS simulates networks deterministically: small protocol engines run over virtual time and
exchange packets through virtual cables. This project models those engines in Dafny, branch
by branch, and proves what each is for, over every input, every run or every stable state.

Each engine that changes its fields step by step is a class (`OspfExchange`, `TcpConnection`,
`StpInstance`, `EventQueue`, `DirectionalLink`, `Cable`, `NatTable`, `DhcpServer`) or a method
with the original's loops (`Spf`, `SpfRoutes`, `LsaChecksum`, `DnsCodec`). Every method is proved
equal to a function on values. Those functions are held to statements that do not use them
(`OspfPackets`, `OspfAnswers`, `TcpReception`, `StpReception`, `NatTraffic`, `DhcpLeases`,
`CableDelivery`, `DnsFormat`: what each operation does, from the values before and after), and
networks and runs of them carry the theorems. A run is an arbitrary sequence of actions; an action that is not enabled changes nothing, so a theorem
about all sequences is a theorem about all schedules.

| Files | Part | Main results |
|---|---|---|
| `OspfLsa`, `OspfExchangeSpec`, `OspfExchange`, `OspfPackets`, `OspfAnswers`, `OspfRequests`, `OspfNetwork`, `OspfProgress`, `OspfDatabase`, `OspfLoading`, `OspfFull` | OSPF database exchange (sections 10.6 to 10.8 and 13.1 of RFC 2328) | semiorder laws of instance comparison; no restart in any run; whole summaries; synchronised when Full; Full always within reach; what is owed stays owed until acknowledged |
| `TcpSpec`, `TcpReception`, `TcpConnection`, `TcpNetwork`, `TcpProgress` | simulated TCP (sections 3.5, 3.6 and 3.10.7.4 of RFC 9293) | exactly which runs are safe under loss, duplication and reordering; what is outstanding gets through; graceful close; bounded retransmission; lifecycle order |
| `StpSpec`, `StpReception`, `StpBridge`, `StpNetwork`, `StpTiming`, `StpForwarding` | spanning tree (clause 8 of IEEE 802.1D-1998, IEEE 802.1w) | one root, shortest distances, a spanning tree; forwarding after thirty seconds and not before; synchronisation before agreement |
| `Spf`, `SpfRoutes` | shortest paths and intra-area routes (section 16.1 of RFC 2328) | exact costs over all walks, first hops, for each prefix the best route over all walks, whatever the order |
| `LinkSpec`, `Link`, `EventQueue`, `CableSpec`, `Cable`, `CableDelivery` | virtual cable and event queue | line rate and latency bounds; FIFO delivery across outages; nothing lost without a cause; what is sent is delivered |
| `NatSpec`, `Nat`, `NatRuns`, `NatTraffic` | address and port translation (section 2.2 of RFC 3022) | injectivity over runs; replies come back; complete port search; exactly which packets are translated, and into what |
| `DhcpSpec`, `Dhcp`, `DhcpRuns`, `DhcpLeases` | address allocation (section 4.3.1 of RFC 2131) | exclusive addresses over runs; leases kept to their end; lowest allowed offer; quarantine; offers can be accepted |
| `LsaChecksum` | Fletcher checksum (section 12.1.7 of RFC 2328, Annex B of RFC 905) | exactly when the inserted bytes check; single corruptions are noticed |
| `DnsSpec`, `Dns`, `DnsRoundTrip`, `DnsFormat` | DNS messages with compression (section 4.1.4 of RFC 1035) | the exact round trip; exactly which bytes are a message, and which texts a name |
| `Prelude` | integer widths, saturation, `BTreeMap` order | |

`dafny verify dfyconfig.toml` checks everything.

## What the proofs found

- **TCP, reading during the handshake.** `tcp_read` may be called in SynSent, before the peer's
  sequence number is known; its window update then acknowledges sequence 0. If the peer's next
  sequence number happens to be 0 when the late update arrives in order, and text or a FIN is
  outstanding, that is cleared although it never arrived. `TcpNetwork.EarlyReadLosesTrack` gives
  such a run. `TcpNetwork.SafeExactly` shows that nothing else goes wrong: a run is safe after
  every prefix if and only if it never makes such a delivery (`NeverErases`). Two conditions
  known beforehand exclude it: the application reads only once connected (`LateReadsAreSafe`), or
  the listener's stream stays short of number 0, for which an initial number of 0 or 2^32 - 1
  always suffices (`ShortStreamsAreSafe`). The lifecycle theorem needs no condition.
- **DNS, 127 labels.** A name of 127 one-byte labels is legal and encodes, but a compressed answer
  to it takes 129 steps and the reader allows 128: `DnsRoundTrip.DecodeUndoesEncode` states the
  round trip with this family as its exact exception.
- **LSA checksum.** `insert` does not clear the check bytes itself. Its result verifies exactly
  when each old check byte was 0 or 255, so clearing the field first is needed
  (`LsaChecksum.InsertedChecks`).
- **NAT, address rules.** Allocation avoids the ports of static rules, but with the
  outside-interface form it does not avoid an address claimed by a static address rule
  (`NatRuns.AddressRuleTakesReplies` gives the packet). Whether a reply comes back is known before
  the packet leaves: always behind a pool, and otherwise exactly when no address rule claims the
  address its flow has, or for a new flow that of the outside interface (`NatRuns.RepliesComeBack`).
- **LSA instances.** "Same instance" is not transitive, because of the 900 second age window
  (`OspfLsa.EqualNotTransitive`); the proofs about the exchange use only that "strictly newer" is
  antisymmetric and transitive. For the same reason a database that replaces entries by "the same
  instance" can drift behind what it has seen (`OspfDatabase.EqualReplacementsDrift`).

## Assumptions of the run theorems

- OSPF: both sides use the same MTU, each is started once, databases never lose a key (they may
  change and age), channels are FIFO and may lose any packet. The LSA is a header with a payload;
  OSPFv2 constants are used for the headers carried by one description. `OspfFull.ReachesFull` asks
  that what may still be requested fits a packet, that no database has fallen back behind its own
  summary, and that a retransmission list of 4096 entries has room.
- TCP: one connection and one incarnation; each side writes fewer than 2^32 minus 2 bytes. Forged
  resets are allowed in every run. `TcpProgress.OutstandingGetsThrough` asks that neither connection
  has used up its retries or its idle time, and that the buffers have room.
- STP: distinct bridge ids, port costs of at least 1, no cable between two ports of one switch,
  vectors held unguarded and without cost saturation in the stable state.
- NAT: the configuration is fixed over a run, and a pool rule names a configured pool, as
  `crates/rios-device/src/nat/config.rs:136-147` ensures.
- DHCP: none; the configuration may differ at every operation of a run.
- Cable: none on the link policy, which may differ for every frame.

## Model

| member | source | states |
|---|---|---|
| OspfLsa.CompareAntisymmetric | crates/rios-routing/src/ospf_exchange.rs:12-30 | swapping two LSA headers reverses the verdict; nothing is newer than itself |
| OspfLsa.NewerTransitive | crates/rios-routing/src/ospf_exchange.rs:12-30 | "strictly newer" is transitive although "same instance" is not |
| OspfLsa.NewerSemiorder | crates/rios-routing/src/ospf_exchange.rs:20-30 | the two semiorder laws of instance comparison |
| OspfLsa.EqualNotTransitive | crates/rios-routing/src/ospf_exchange.rs:20-30 | ages 0, 800 and 1600 break transitivity of "same instance" |
| OspfLsa.EqualChains | crates/rios-routing/src/ospf_exchange.rs:20-30 | exactly when "same instance" chains |
| OspfLsa.NewerExactly | crates/rios-routing/src/ospf_exchange.rs:12-30 | the newer instance: larger sequence number, then larger checksum, then the maximum age, then more than 900 s younger |
| ExchangeSpec.RestartsExactly | crates/rios-routing/src/ospf_exchange.rs:176-327 | the adjacency falls back to ExStart exactly on a sequence mismatch or a request for a missing LSA |
| ExchangeSpec.DeadlineIsExact | crates/rios-routing/src/ospf_exchange.rs:335-368 | a tick before the advertised deadline is silent and changes nothing, one at or after it sends, and all deadlines left are later |
| ExchangeSpec.RequestHeadersFrame | crates/rios-routing/src/ospf_exchange.rs:119-138 | taking a header list touches only the request list |
| ExchangeSpec.TakeUpdatesFrame | crates/rios-routing/src/ospf_exchange.rs:279-311 | an update touches only the request and retransmission lists and never adds a request |
| Adjacency.OspfExchange.Start | crates/rios-routing/src/ospf_exchange.rs:84-95 | the summary is the database in key order and the first description is empty, with all three flags |
| Adjacency.OspfExchange.NextDd | crates/rios-routing/src/ospf_exchange.rs:108-118 | the next page: the next stretch of the summary, its more flag, sequence and flags |
| Adjacency.OspfExchange.RequestHeaders | crates/rios-routing/src/ospf_exchange.rs:119-138 | the loop requests every header newer than the database, up to the limit |
| Adjacency.OspfExchange.Finish | crates/rios-routing/src/ospf_exchange.rs:139-149 | Full when nothing is requested, Loading with request packets otherwise |
| Adjacency.OspfExchange.Flood | crates/rios-routing/src/ospf_exchange.rs:158-173 | flooding one LSA: refusals, retransmission list, request list, packet |
| Adjacency.OspfExchange.Negotiate | crates/rios-routing/src/ospf_exchange.rs:194-214 | leaving ExStart as master or slave |
| Adjacency.OspfExchange.AcceptDd | crates/rios-routing/src/ospf_exchange.rs:235-264 | the in-sequence description: requests, next page or finish |
| Adjacency.OspfExchange.ReceiveDd | crates/rios-routing/src/ospf_exchange.rs:194-264 | duplicates, mismatches and progress of database descriptions |
| Adjacency.OspfExchange.AnswerRequests | crates/rios-routing/src/ospf_exchange.rs:266-278 | link-state requests are answered in order or restart the exchange |
| Adjacency.OspfExchange.ReceiveUpdate | crates/rios-routing/src/ospf_exchange.rs:279-311 | every advertisement of an update: request list, acknowledgment, newer copy sent back |
| Adjacency.OspfExchange.ReceiveAck | crates/rios-routing/src/ospf_exchange.rs:312-322 | acknowledgments clear exactly the matching retransmissions |
| Adjacency.OspfExchange.Receive | crates/rios-routing/src/ospf_exchange.rs:176-327 | one body from the neighbour: new state, packets and advertisements |
| Adjacency.OspfExchange.Tick | crates/rios-routing/src/ospf_exchange.rs:346-368 | all due retransmissions, re-armed |
| OspfRequests.RequestsBounded | crates/rios-routing/src/ospf_exchange.rs:119-138 | distinct keys bound the request list, so the 4096 limit drops no header |
| OspfRequests.RequestPage | crates/rios-routing/src/ospf_exchange.rs:119-138 | accepting a page keeps every accepted header requested or matched |
| OspfRequests.UpdateOne | crates/rios-routing/src/ospf_exchange.rs:279-311 | a request leaves the list only for an instance at least as recent |
| OspfRequests.SummaryKeys | crates/rios-routing/src/ospf_exchange.rs:84-95 | the summary names each database key once, within the limit |
| OspfRequests.SummaryComplete | crates/rios-routing/src/ospf_exchange.rs:84-95 | below the limit the summary leaves no readable entry out |
| OspfNetwork.NoRestart | crates/rios-routing/src/ospf_exchange.rs:215-248 | in every run, no deliverable packet takes the mismatch or missing-LSA restart, retransmissions included |
| OspfNetwork.WholeSummaryAccepted | crates/rios-routing/src/ospf_exchange.rs:194-264 | the accepted header lists are always a prefix of the peer's summary, and all of it after Exchange |
| OspfNetwork.FullIsSynchronised | crates/rios-routing/src/ospf_exchange.rs:119-149 | a Full side requests nothing and has seen an instance not older than every header of its peer's summary |
| OspfNetwork.NothingForgotten | crates/rios-routing/src/ospf_exchange.rs:119-138 | before that, every unmatched header is on the request list |
| OspfNetwork.FinishTogether | crates/rios-routing/src/ospf_exchange.rs:235-264 | when one side finishes, the other needs at most the last page already sent |
| OspfNetwork.MasterSees | crates/rios-routing/src/ospf_exchange.rs:194-264 | every description in flight to the master is a repeat or the slave's next page |
| OspfNetwork.SlaveSees | crates/rios-routing/src/ospf_exchange.rs:194-264 | every description in flight to the slave is a repeat or the master's next page |
| OspfProgress.RoundAdvances | crates/rios-routing/src/ospf_exchange.rs:235-264 | one timer and the deliveries it causes, without loss, take the master exactly one page on or out of Exchange |
| OspfProgress.RoundsFinish | crates/rios-routing/src/ospf_exchange.rs:235-264 | as many loss-free rounds as pages are left take both sides to Loading or Full |
| OspfProgress.NeverStuck | crates/rios-routing/src/ospf_exchange.rs:346-368 | after any run, however lossy, some loss-free continuation takes both sides to Loading or Full |
| OspfDatabase.FullHoldsSummary | crates/rios-routing/src/ospf_exchange.rs:119-149 | once accepted updates are installed and entries only replaced by strictly newer ones, a Full side's database itself holds an instance not older than every header of its peer's summary |
| OspfDatabase.EqualReplacementsDrift | crates/rios-routing/src/ospf_exchange.rs:20-30 | replacing by an instance that compares equal is not enough for that |
| OspfPackets.RequestsFit | crates/rios-routing/src/ospf_exchange.rs:150-156 | all that is requested, in key order, in packets as full as the MTU allows |
| OspfPackets.AcksFit | crates/rios-routing/src/ospf_exchange.rs:303-307 | all acknowledgments in order, in packets as full as the MTU allows |
| OspfPackets.DescriptionDecides | crates/rios-routing/src/ospf_exchange.rs:184-248 | exactly which descriptions are ignored, open the exchange, are repeats, are taken, or start it over, and what a restart leaves |
| OspfPackets.OpeningExactly | crates/rios-routing/src/ospf_exchange.rs:194-206 | how either side leaves ExStart |
| OspfPackets.AcceptExactly | crates/rios-routing/src/ospf_exchange.rs:249-264 | what taking the next description sends and when it finishes the exchange |
| OspfPackets.RequestExactly | crates/rios-routing/src/ospf_exchange.rs:119-138 | a header is requested exactly when neither the database nor the list has it as recent, and there is room |
| OspfPackets.PageExactly | crates/rios-routing/src/ospf_exchange.rs:96-118 | a page is as many headers as fit of those not described yet, and says whether more follow |
| OspfPackets.FinishExactly | crates/rios-routing/src/ospf_exchange.rs:139-149 | Full exactly without requests; otherwise Loading, asking at once and after five seconds |
| OspfPackets.UpdateEndsLoading | crates/rios-routing/src/ospf_exchange.rs:279-311 | the last requested advertisement ends Loading |
| OspfPackets.IgnoredBefore | crates/rios-routing/src/ospf_exchange.rs:266-333 | before Exchange requests, updates and acknowledgments change nothing and are not answered |
| OspfPackets.CountedFrom | crates/rios-routing/src/ospf_exchange.rs:266-333 | from Exchange on they count |
| OspfPackets.TickExactly | crates/rios-routing/src/ospf_exchange.rs:346-368 | what each timer repeats, when, and for how long it then waits |
| OspfAnswers.FloodExactly | crates/rios-routing/src/ospf_exchange.rs:158-174 | an advertisement is sent and listed for five seconds exactly when it encodes, fits the MTU, and is listed or there is room |
| OspfAnswers.RequestsAreAnswered | crates/rios-routing/src/ospf_exchange.rs:266-278 | a request for known keys is answered with exactly one update for each advertisement that fits, in order, each listed for retransmission |
| OspfAnswers.UpdateExactly | crates/rios-routing/src/ospf_exchange.rs:279-302 | one advertisement of an update is refused, or taken and acknowledged, or answered with the newer copy |
| OspfAnswers.AcknowledgedExactly | crates/rios-routing/src/ospf_exchange.rs:312-323 | an advertisement leaves the list exactly when an acknowledgment compares Equal to it |
| OspfAnswers.TickResends | crates/rios-routing/src/ospf_exchange.rs:346-368 | until then it is sent again every five seconds |
| OspfLoading.RequestRound | crates/rios-routing/src/ospf_exchange.rs:266-311 | without loss, one request timer and two rounds of deliveries take a Loading side whose requests can be served to Full |
| OspfFull.ReachesFull | crates/rios-routing/src/ospf_exchange.rs:176-327 | after any run, however lossy, if what may still be requested is held no older than described and fits a packet, some loss-free continuation takes both sides to Full with empty request lists |
| OspfFull.UpgradesReachFull | crates/rios-routing/src/ospf_exchange.rs:176-327 | with databases that are only upgraded it is enough that what may be requested fits a packet |
| OspfFull.StepStillOwes | crates/rios-routing/src/ospf_exchange.rs:158-174 | in every reachable state, a step takes an advertisement off the retransmission list exactly by delivering its own acknowledgment |
| OspfFull.PendingStays | crates/rios-routing/src/ospf_exchange.rs:312-323 | along every run, however lossy, what is owed stays owed until it is acknowledged |
| TcpObject.TcpConnection.Send | crates/rios-device/src/tcp.rs:130-148 | building and arming one segment |
| TcpObject.TcpConnection.TcpSend | crates/rios-device/src/tcp.rs:337-364 | a write is refused or becomes the one outstanding segment |
| TcpObject.TcpConnection.TcpClose | crates/rios-device/src/tcp.rs:366-384 | a close is refused or sends the FIN |
| TcpObject.TcpConnection.TcpRead | crates/rios-device/src/tcp.rs:386-397 | a read drains the buffer and announces the window |
| TcpObject.TcpConnection.ReceiveInOrder | crates/rios-device/src/tcp.rs:209-251 | acknowledgment, text and FIN of an in-order segment |
| TcpObject.TcpConnection.Receive | crates/rios-device/src/tcp.rs:153-251 | one segment in any state: the new state and at most one answer; the class invariant is kept and the lifecycle stage never decreases |
| TcpObject.TcpConnection.Resend | crates/rios-device/src/tcp.rs:452-469 | repeating the outstanding segment with doubled wait, or giving up |
| TcpObject.TcpConnection.Tick | crates/rios-device/src/tcp.rs:442-471 | one timer round: removal, retransmission with doubled wait, give-up |
| TcpSpec.ReceiveMovesForward | crates/rios-device/src/tcp.rs:153-251 | whatever arrives, the connection stays consistent and its lifecycle stage never decreases |
| TcpSpec.OperationsMoveForward | crates/rios-device/src/tcp.rs:337-397 | the same for writes, closes, reads and timer rounds |
| TcpSpec.CapacityIsExact | crates/rios-device/src/tcp.rs:92-100 | the advertised capacity is exactly what a write accepts |
| TcpSpec.ResendsAreBounded | crates/rios-device/src/tcp.rs:442-471 | over any sequence of timer rounds a segment is resent at most five times, each time at the first round that finds its wait of 1, 2, 4, 8 or 16 s over, and the connection closes only after five resends, at a round after the last wait of 32 s |
| TcpSpec.TextIsTaken | crates/rios-device/src/tcp.rs:209-250 | an in-order segment that fits is taken whole: text and FIN added, the expected number moved past them, acknowledged at once |
| TcpSpec.TextMustFit | crates/rios-device/src/tcp.rs:227-234 | one that does not fit is answered with what is still expected, and its acknowledgment counts |
| TcpReception.OpensExactly | crates/rios-device/src/tcp.rs:102-148 | what either side sends and holds when it opens |
| TcpReception.AnswerOpens | crates/rios-device/src/tcp.rs:184-196 | an opener is connected exactly by a SYN that acknowledges its own |
| TcpReception.AckOpens | crates/rios-device/src/tcp.rs:197-226 | a listener's connection is open exactly from the acknowledgment of its SYN, and repeats its answer to a repeated SYN |
| TcpReception.ResetExactly | crates/rios-device/src/tcp.rs:162-173 | exactly which resets close |
| TcpReception.OutOfSequence | crates/rios-device/src/tcp.rs:206-211 | a segment out of sequence changes nothing and is answered with what is expected |
| TcpReception.AfterPeerClosed | crates/rios-device/src/tcp.rs:212-231 | after the peer's FIN only acknowledgments count, and they end LastAck and FinWait |
| TcpReception.TimeWaitExactly | crates/rios-device/src/tcp.rs:174-183 | exactly what is answered in TimeWait and what starts its time again |
| TcpReception.TimeWaitStarts | crates/rios-device/src/tcp.rs:149-152 | TimeWait always starts with its 120 s ahead |
| TcpReception.ClosedIsSilent | crates/rios-device/src/tcp.rs:159-161 | a closed connection takes nothing and says nothing |
| TcpReception.SendsExactly | crates/rios-device/src/tcp.rs:118-148 | what is sent is kept for retransmission exactly when it takes up sequence numbers |
| TcpReception.WritesExactly | crates/rios-device/src/tcp.rs:337-364 | exactly which writes are accepted, refused and why, and what they send |
| TcpReception.ClosesExactly | crates/rios-device/src/tcp.rs:366-384 | exactly when a direction closes, and what that sends |
| TcpReception.RemovedExactly | crates/rios-device/src/tcp.rs:442-471 | exactly when a connection is removed |
| TcpReception.ResendsExactly | crates/rios-device/src/tcp.rs:442-471 | exactly what a timer round resends, and when it gives up |
| TcpNetwork.SafeExactly | crates/rios-device/src/tcp.rs:130-251 | a run is safe after every prefix if and only if it never delivers an early acknowledgment, in order, to a listener whose next number is 0 and that has something outstanding its peer has not taken |
| TcpNetwork.ErasingBreaks | crates/rios-device/src/tcp.rs:209-230 | every such delivery loses track of text or a FIN |
| TcpNetwork.ShortStreamsAreSafe | crates/rios-device/src/tcp.rs:130-251 | no read can hurt while the listener's stream is short of number 0, nor with initial number 0 or 2^32 - 1 |
| TcpNetwork.LateReadsAreSafe | crates/rios-device/src/tcp.rs:130-251 | without reads before the handshake every run is safe throughout |
| TcpNetwork.StreamSafety | crates/rios-device/src/tcp.rs:130-251 | delivered bytes are a prefix of the written ones; the missing rest is empty or exactly the outstanding payload, and a FIN not taken is outstanding |
| TcpNetwork.GracefulClose | crates/rios-device/src/tcp.rs:212-250 | TimeWait means both FINs were accepted and both streams are complete |
| TcpProgress.OutstandingGetsThrough | crates/rios-device/src/tcp.rs:209-250 | after any safe run, with everything in flight lost, timers and deliveries alone get outstanding text or FIN through: the peer then has every byte written and the slot is empty |
| TcpProgress.HandshakeCompletes | crates/rios-device/src/tcp.rs:184-226 | a call and three deliveries connect both sides, whatever the initial numbers |
| TcpNetwork.LifecycleMovesForward | crates/rios-device/src/tcp.rs:149-251 | along every run neither lifecycle goes back |
| TcpNetwork.EarlyReadLosesTrack | crates/rios-device/src/tcp.rs:386-397 | a read in SynSent can make the peer forget undelivered data |
| TcpNetwork.InOrderPosition | crates/rios-device/src/tcp.rs:209-251 | a segment with the expected 32-bit number is at the expected stream position |
| TcpNetwork.FullAck | crates/rios-device/src/tcp.rs:212-218 | an acknowledgment of everything sent, unless it is an early one, proves everything was taken |
| StpSpec.BridgeIdOrder | crates/rios-device/src/stp.rs:10-27 | for priorities that are multiples of 4096, bridge ids order by priority, VLAN, then MAC, and never tie unless all agree |
| StpSpec.BetterIsStrictOrder | crates/rios-device/src/stp.rs:92-106 | vectors are strictly and totally ordered |
| StpSpec.BestPortIsBest | crates/rios-device/src/stp.rs:92-106 | no received, unguarded path beats the elected port's |
| StpSpec.ElectIsMinimum | crates/rios-device/src/stp.rs:92-114 | the election is no farther than the bridge's own claim and every offer, and is attained by one of them; the own claim stands exactly when no offer beats it |
| StpReception.BetterIsSmaller | crates/rios-device/src/stp.rs:92-114 | vectors order like their fields packed into one number, root first, ties broken by the local port |
| StpReception.RecomputesPort | crates/rios-device/src/stp.rs:87-165 | a vector lives until it expires, an agreement until the election or the role changes, and the timer restarts in just those cases |
| StpReception.FlushExactly | crates/rios-device/src/stp.rs:166-174 | addresses are kept exactly when the election stands and no port has lost the view it had |
| StpReception.LifetimeExactly | crates/rios-device/src/stp.rs:307-313 | a vector lives for what is left of its maximum age, in rapid mode at most three hello times |
| StpReception.RefusedExactly | crates/rios-device/src/stp.rs:302-306 | root guard refuses exactly a vector that beats what this switch announces |
| StpReception.StoreExactly | crates/rios-device/src/stp.rs:314-325 | storing a vector concerns its own port, whose timer starts if it held none |
| StpReception.HandshakeExactly | crates/rios-device/src/stp.rs:327-350 | who has agreed after a proposal or an agreement, who gives way, and whose timer restarts |
| StpReception.AgreesOnlyRapidly | crates/rios-device/src/stp.rs:327-352 | a port comes to agree only by a rapid packet on it that root guard lets pass, on a rapid switch |
| StpReception.ReportsExactly | crates/rios-device/src/stp.rs:353-361 | the outside is told exactly of a changed root, port view or agreement, or of a proposal to answer |
| StpReception.ShutExactly | crates/rios-device/src/stp.rs:278-299 | a guarded port is shut and forgotten on any packet; packets of this bridge change nothing |
| StpObject.StpInstance.FindBest | crates/rios-device/src/stp.rs:92-106 | one pass over the stored vectors finds the best port |
| StpObject.StpInstance.SettlePort | crates/rios-device/src/stp.rs:118-163 | one port's role, agreement, timer and state |
| StpObject.StpInstance.Recompute | crates/rios-device/src/stp.rs:77-175 | the whole recomputation, and whether learned addresses are stale |
| StpObject.StpInstance.Synchronise | crates/rios-device/src/stp.rs:327-345 | every other non-edge designated port loses its agreement and timer |
| StpObject.StpInstance.Handshake | crates/rios-device/src/stp.rs:327-352 | proposal and agreement |
| StpObject.StpInstance.Receive | crates/rios-device/src/stp.rs:267-362 | one BPDU: guards, storage, recomputation, handshake, report |
| StpNetwork.OneDesignatedEnd | crates/rios-device/src/stp.rs:118-142 | exactly one end of a cable is Designated, and not both are Root |
| StpNetwork.EndsAgree | crates/rios-device/src/stp.rs:92-142 | both ends of a cable agree on the root, costs differ by at most the cable |
| StpNetwork.WalkBounds | crates/rios-device/src/stp.rs:92-142 | along any walk the root is the same and costs differ by at most its length |
| StpNetwork.PathToRoot | crates/rios-device/src/stp.rs:92-142 | following Root ports reaches the root bridge at exactly the advertised cost |
| StpNetwork.OneRoot | crates/rios-device/src/stp.rs:92-142 | connected switches agree on the least bridge id among them |
| StpNetwork.ShortestDistance | crates/rios-device/src/stp.rs:92-142 | each root cost is the weighted shortest distance to the root |
| StpNetwork.NoTreeCycle | crates/rios-device/src/stp.rs:118-142 | the Root-Designated cables contain no cycle |
| StpNetwork.SpanningTree | crates/rios-device/src/stp.rs:118-142 | they span the network: exactly the root has no Root port, every other switch has one leading strictly nearer |
| StpTiming.ForwardingNeedsThirtySeconds | crates/rios-device/src/stp.rs:115-163 | a non-edge, unagreed port forwards only after 30 s with its role and the root id, cost and port unchanged |
| StpForwarding.StateExactly | crates/rios-device/src/stp.rs:146-163 | the four states of a port, each exactly when: guard, role, edge, agreement, 15 and 30 s |
| StpForwarding.SteadyPortForwards | crates/rios-device/src/stp.rs:115-163 | over runs, a port whose standing stays and whose timer nothing restarts for 30 s is Forwarding at the next recomputation, unless Alternate or refused |
| StpTiming.SynchronisedBeforeOpening | crates/rios-device/src/stp.rs:327-352 | in the step that first agrees a root port, every other non-edge port ends up Blocking |
| StpTiming.ArrivedIsReceive | crates/rios-device/src/stp.rs:267-362 | the recorded history is that of the modelled reception |
| Spf.GraphIgnoresOrder | crates/rios-routing/src/ospf_spf.rs:81-104 | the graph does not depend on the order of the LSAs |
| Spf.EdgesAreReciprocal | crates/rios-routing/src/ospf_spf.rs:116-150 | the edges out of a vertex are exactly the adjacencies both ends advertise, at the metric of the near end |
| Spf.EdgesShape | crates/rios-routing/src/ospf_spf.rs:116-150 | edges end in the graph; leaving a network leads to a router and is free |
| Spf.RelaxAll | crates/rios-routing/src/ospf_spf.rs:152-165 | the loop relaxes the edges of a vertex one after the other |
| Spf.RelaxAllKeeps | crates/rios-routing/src/ospf_spf.rs:152-165 | that keeps all labels explained and every vertex scheduled or done, and any change uses up one of finitely many improvements |
| Spf.FindsOne | crates/rios-routing/src/ospf_spf.rs:105-165 | the graph alone determines the labels the search ends with, first hops included |
| Spf.ShortestPaths | crates/rios-routing/src/ospf_spf.rs:105-165 | terminates; labels are exactly the reachable vertices, costs the minimum saturating cost over all walks, hops witnessed, and no edge offers an equally cheap label with a smaller hop |
| Spf.RemovedByCost | crates/rios-routing/src/ospf_spf.rs:105-165 | entries leave the heap in the order of their costs |
| Spf.LeastIsLightest | crates/rios-routing/src/ospf_spf.rs:11-14 | entries are removed by cost, then routers before networks, then id, then hop |
| Spf.WalksAreCovered | crates/rios-routing/src/ospf_spf.rs:105-165 | when nothing is scheduled, no walk is cheaper than its end's label |
| Spf.HopIsFirstRouter | crates/rios-routing/src/ospf_spf.rs:153-165 | the hop of a walk is its first router after the root |
| Spf.FirstHopsLeadTheWay | crates/rios-routing/src/ospf_spf.rs:153-165 | every label's hop starts some minimum-cost walk; only the root and its networks have none |
| SpfRoutes.MaskLengthExactly | crates/rios-routing/src/ospf_spf.rs:25-29 | a mask has a prefix length if and only if it is the contiguous mask of that length |
| SpfRoutes.ClearHostRoundsDown | crates/rios-routing/src/ospf_spf.rs:25-29 | clearing host bits rounds down to the prefix |
| SpfRoutes.PreferredOrder | crates/rios-routing/src/ospf_spf.rs:38-48 | preference is a strict total order on distinct keys |
| SpfRoutes.PreferredIsLighter | crates/rios-routing/src/ospf_spf.rs:30-48 | preference is the order of kind, metric, internal cost, origin and first hop packed into one number |
| SpfRoutes.Install | crates/rios-routing/src/ospf_spf.rs:50-58 | a route is replaced exactly by a preferred one |
| SpfRoutes.IntraAreaRoutes | crates/rios-routing/src/ospf_spf.rs:166-208 | the table is the preference-minimum of all reachable stub and transit candidates below the metric limit |
| SpfRoutes.PrefixExactly | crates/rios-routing/src/ospf_spf.rs:25-29 | a mask and an address have a prefix exactly when the mask is contiguous, and it is the network address and length |
| SpfRoutes.CostIsTotal | crates/rios-routing/src/ospf_spf.rs:152-165 | the saturating cost of a walk is its exact length cut off at the 32-bit maximum |
| SpfRoutes.BestIsTable | crates/rios-routing/src/ospf_spf.rs:166-208 | each prefix some walk leads to below the metric limit, and no other, is installed, with the metric, internal cost, origin and first hop of a walk no other walk beats |
| SpfRoutes.BestIsUnique | crates/rios-routing/src/ospf_spf.rs:166-208 | the candidates determine the table, whatever the order |
| SpfRoutes.Calculate | crates/rios-routing/src/ospf_spf.rs:81-208 | from an LSA list to least-cost labels of exactly the reachable vertices and, for each prefix, the best route over all walks to a stub link or transit network |
| SpfRoutes.ResultsIgnoreOrder | crates/rios-routing/src/ospf_spf.rs:81-208 | whatever the order of an unambiguous LSA list, the same labels and the same routing table, first hops included |
| LinkSpec.SerializationIsTight | crates/rios-simulator/src/link.rs:17-21 | enough time for every bit, and less than a microsecond too much |
| LinkSpec.QueuedIsPruned | crates/rios-simulator/src/link.rs:115-118 | the pending count is the length of the pruned queue |
| LinkSpec.NeverAboveLineRate | crates/rios-simulator/src/link.rs:125-162 | any consecutive admitted frames fit the rate between their first start and last finish |
| LinkSpec.LatencyAndOrder | crates/rios-simulator/src/link.rs:125-162 | arrivals lie within the jitter of finish plus delay despite the clamp, never go back, and the queue bound holds |
| CableDelivery.AdmitExactly | crates/rios-simulator/src/link.rs:125-162 | exactly when a frame is refused, when it goes on the wire, for how long, when it arrives, and for which samples it is lost |
| LinkObject.DirectionalLink.Admit | crates/rios-simulator/src/link.rs:125-162 | one admission: pruning loop, refusal, overflow, reservation, clamped arrival, loss |
| LinkObject.DirectionalLink.QueuedAt | crates/rios-simulator/src/link.rs:115-118 | the count of frames finishing later |
| LinkObject.DirectionalLink.Reset | crates/rios-simulator/src/link.rs:119-123 | an outage forgets reservations and keeps counters |
| EventQueueSpec.LeavesInOrder | crates/rios-simulator/src/queue.rs:48-53 | over every run events leave in strictly increasing (time, insertion) order, each exactly once |
| EventQueueSpec.ClockNeverGoesBack | crates/rios-simulator/src/queue.rs:97-140 | no operation moves the clock back |
| EventQueueSpec.SchedulesExactly | crates/rios-simulator/src/queue.rs:97-122 | exactly when an event is refused, and why |
| EventQueueSpec.AdvancesExactly | crates/rios-simulator/src/queue.rs:129-140 | time passes on its own exactly up to the moment before the first pending event |
| EventQueueObject.EventQueue.ScheduleAt | crates/rios-simulator/src/queue.rs:97-113 | insertion, or an error that changes nothing |
| EventQueueObject.EventQueue.ScheduleAfter | crates/rios-simulator/src/queue.rs:114-122 | relative insertion with overflow errors |
| EventQueueObject.EventQueue.Step | crates/rios-simulator/src/queue.rs:123-128 | the first event leaves and sets the clock |
| EventQueueObject.EventQueue.AdvanceTo | crates/rios-simulator/src/queue.rs:129-140 | idle time passes only up to the next event |
| CableSpec.FifoDelivery | crates/rios-topology/src/delivery.rs:58-93 | each direction delivers sent frames in the order sent, none twice, at times that never go back, across outages and policy changes |
| CableSpec.NothingLostSilently | crates/rios-topology/src/delivery.rs:260-276 | under a carrier that is still up, a frame no longer pending was delivered, lost by its sample, or refused by the device |
| CableDelivery.SentIsDelivered | crates/rios-topology/src/delivery.rs:238-276 | over every run, a frame on its way under a carrier that stays up is pending or delivered, and delivered once the pending events have been taken |
| CableDelivery.TransmitExactly | crates/rios-topology/src/delivery.rs:29-100 | a frame enters the queue exactly when the link is up, the device passes it and the line admits it |
| CableDelivery.RefreshExactly | crates/rios-topology/src/lab.rs:467-482 | the carrier is up exactly when the link and both interfaces are, and each change idles both lines |
| CableDelivery.JudgeExactly | crates/rios-topology/src/delivery.rs:238-276 | exactly which popped frames are delivered, refused or lost |
| CableObject.Cable.Transmit | crates/rios-topology/src/delivery.rs:29-100 | refusals, admission and scheduling of one frame |
| CableObject.Cable.Refresh | crates/rios-topology/src/lab.rs:467-482 | a carrier change starts a new generation and resets both transmitters |
| CableObject.Cable.Step | crates/rios-topology/src/delivery.rs:238-276 | the popped frame's verdict |
| NatObject.NatTable.AllocatePort | crates/rios-device/src/nat.rs:382-393 | the search loop over the port range from the cursor |
| NatObject.NatTable.PoolAddress | crates/rios-device/src/nat.rs:256-278 | the held pool address or the first free one |
| NatObject.NatTable.Expire | crates/rios-device/src/nat.rs:374-381 | expired translations leave and are counted |
| NatObject.NatTable.Static | crates/rios-device/src/nat.rs:202-255 | the first matching static rule rewrites the packet |
| NatObject.NatTable.Allocate | crates/rios-device/src/nat.rs:108-140 | a new translation, or a drop when table, pool or ports are exhausted |
| NatObject.NatTable.Outbound | crates/rios-device/src/nat.rs:62-153 | static, then dynamic translation, or unchanged, or dropped |
| NatObject.NatTable.Inbound | crates/rios-device/src/nat.rs:162-201 | the reverse direction |
| NatRuns.PortSearchIsComplete | crates/rios-device/src/nat.rs:382-393 | from any cursor the search fails exactly when every port is taken, and otherwise returns a free one |
| NatRuns.VisitsEachOnce | crates/rios-device/src/nat.rs:382-393 | the ports a search tries are distinct, in cyclic order, and a full search tries every port |
| NatRuns.SearchVisits | crates/rios-device/src/nat.rs:382-393 | the search returns the first free port among those and moves the cursor past it, or finds all of them taken |
| NatRuns.PortsNeverRunOut | crates/rios-device/src/nat.rs:108-126 | below the translation cap and with at most 33617 static port rules the search succeeds |
| NatRuns.FreeAddressIsLeast | crates/rios-device/src/nat.rs:264-278 | the least free pool address, None only when none is free |
| NatRuns.TranslationsStayInjective | crates/rios-device/src/nat.rs:94-153 | over every run no two translations share a local or a global flow |
| NatRuns.UnsoundRuleCollides | crates/rios-device/src/nat.rs:119-123 | a rule with neither pool nor overloading would collide, so configuration must keep pools defined |
| NatRuns.RepliesComeBack | crates/rios-device/src/nat.rs:174-200 | within 60 s and across any traffic, the reply maps back to the original address and port, if and only if, before the packet left, no static address rule claimed the address it was to be given |
| NatRuns.InterfaceClaims | crates/rios-device/src/nat.rs:108-118 | behind an interface rule that address is the one of the outside interface |
| NatRuns.AddressRuleTakesReplies | crates/rios-device/src/nat.rs:202-255 | a concrete echo whose reply goes to the host named by an address rule |
| NatRuns.PoolsAreNeverClaimed | crates/rios-device/src/nat.rs:264-278 | pool translations never use an address claimed by a static rule |
| NatRuns.StaticRepliesComeBack | crates/rios-device/src/nat.rs:202-255 | with compatible rules, static translation one way undoes the other |
| NatTraffic.OutboundDecides | crates/rios-device/src/nat.rs:62-125 | exactly which packets go out translated, are dropped, or pass |
| NatTraffic.OutboundUses | crates/rios-device/src/nat.rs:97-149 | a translated packet leaves through the live translation of its flow or a new one, good for sixty seconds, and the rest of the table stays |
| NatTraffic.NewFlowIsNamed | crates/rios-device/src/nat.rs:105-139 | a new flow gets the address its host holds or else the least free one, and the first unused port from the cursor on |
| NatTraffic.OutboundCounts | crates/rios-device/src/nat.rs:97-157 | hits, drops, allocations and expiries counted |
| NatTraffic.OutboundRefuses | crates/rios-device/src/nat.rs:69-96 | what a packet that is not translated leaves behind |
| NatTraffic.InboundDecides | crates/rios-device/src/nat.rs:162-201 | exactly which packets from outside are translated; none is dropped |
| NatTraffic.InboundUses | crates/rios-device/src/nat.rs:174-201 | they enter through the live translation that expects them |
| NatTraffic.InboundMisses | crates/rios-device/src/nat.rs:174-188 | a packet nobody expects counts as a miss and passes |
| NatTraffic.StaticOut | crates/rios-device/src/nat.rs:202-255 | the first static rule for a packet rewrites it on its way out, unless its payload does not decode |
| NatTraffic.StaticIn | crates/rios-device/src/nat.rs:202-255 | the same on its way in |
| NatTraffic.RetainExactly | crates/rios-device/src/nat.rs:374-381 | a translation is swept exactly when its deadline has come |
| DhcpObject.DhcpServer.FindPool | crates/rios-device/src/dhcp.rs:201-213 | the eligible pool, reservations first, then the lowest id |
| DhcpObject.DhcpServer.SearchAddress | crates/rios-device/src/dhcp.rs:277-299 | the search that jumps over excluded ranges finds what the plain search finds |
| DhcpObject.DhcpServer.MakeOffer | crates/rios-device/src/dhcp.rs:192-311 | the whole offer: expiry, pool, repeat, capacity, reservation, previous address, search |
| DhcpObject.DhcpServer.Commit | crates/rios-device/src/dhcp.rs:314-347 | an offer becomes a binding |
| DhcpObject.DhcpServer.Decline | crates/rios-device/src/dhcp.rs:392-409 | the holder's entries leave and the address is quarantined |
| DhcpObject.DhcpServer.Expire | crates/rios-device/src/dhcp.rs:429-434 | expired offers, bindings and conflicts leave |
| DhcpSpec.ContainsIsInterval | crates/rios-ipv4/src/routing.rs:47-55 | belonging to a prefix is lying between its network and broadcast addresses |
| DhcpRuns.FreshOfferIsLowest | crates/rios-device/src/dhcp.rs:255-299 | a fresh dynamic offer is the least allowed address of the pool, None exactly when no address is allowed |
| DhcpRuns.AddressesAreExclusive | crates/rios-device/src/dhcp.rs:216-310 | over every run two clients never share an offered or bound address; the tables stay bounded |
| DhcpRuns.DeclinedStaysOut | crates/rios-device/src/dhcp.rs:392-409 | a declined address is not offered or bound for ten minutes |
| DhcpRuns.OffersCanBeAccepted | crates/rios-device/src/dhcp.rs:314-347 | until it expires an offer can be committed, whatever other clients do |
| DhcpLeases.SweepExactly | crates/rios-device/src/dhcp.rs:429-434 | a sweep removes an offer, binding or conflict exactly when its deadline has passed |
| DhcpLeases.LeaseHolds | crates/rios-device/src/dhcp.rs:216-347 | a client bound until T keeps exactly that binding through all actions of other clients and sweeps before T, and no other client is offered or bound to the address in that time |
| DhcpLeases.AcceptedLeaseLasts | crates/rios-device/src/dhcp.rs:314-347 | the same from the commit on, for the whole lease |
| DhcpLeases.PoolExactly | crates/rios-device/src/dhcp.rs:201-213 | exactly which pool serves a client |
| DhcpLeases.AllowedIsFit | crates/rios-device/src/dhcp.rs:216-254 | exactly which addresses a client may be given |
| DhcpLeases.OfferExactly | crates/rios-device/src/dhcp.rs:192-311 | exactly when a client is offered an address, which, and what is recorded |
| DhcpLeases.CommitExactly | crates/rios-device/src/dhcp.rs:314-347 | exactly when an offer becomes a binding, and which |
| DhcpLeases.DeclineExactly | crates/rios-device/src/dhcp.rs:392-409 | exactly what declining forgets and quarantines |
| LsaChecksum.FletcherOf | crates/rios-routing/src/lsa_checksum.rs:15-20 | the fold over all bytes |
| LsaChecksum.Insert | crates/rios-routing/src/lsa_checksum.rs:2-14 | two bytes are written in place, all others kept |
| LsaChecksum.FletcherIsWeighted | crates/rios-routing/src/lsa_checksum.rs:15-20 | reducing at every byte equals the plain and weighted sums reduced once |
| LsaChecksum.InsertedChecks | crates/rios-routing/src/lsa_checksum.rs:2-14 | check bytes in 1..255, nothing else changed, and both sums zero exactly when the old check bytes were 0 or 255 |
| LsaChecksum.CorruptionIsNoticed | crates/rios-routing/src/lsa_checksum.rs:15-20 | any single changed byte is noticed, except 0 for 255 |
| DnsCodec.EncodeName | crates/rios-protocol/src/dns.rs:49-56 | a valid name becomes its length-prefixed labels |
| DnsCodec.ReadName | crates/rios-protocol/src/dns.rs:57-96 | the 128-step loop is the unbounded, terminating walk cut off at 128 steps |
| DnsCodec.Encode | crates/rios-protocol/src/dns.rs:120-150 | the whole message, answers named like the question compressed |
| DnsCodec.Decode | crates/rios-protocol/src/dns.rs:152-202 | header checks, question, answers, exact length |
| DnsRoundTrip.CanonicalIsStable | crates/rios-protocol/src/dns.rs:33-48 | canonical names are fixed points of validation |
| DnsRoundTrip.GoodFromIsGoodLabels | crates/rios-protocol/src/dns.rs:33-48 | checking a name in place is checking every label of its split |
| DnsRoundTrip.WalkWire | crates/rios-protocol/src/dns.rs:57-96 | walking an uncompressed name returns its labels in one step each, plus the root |
| DnsRoundTrip.DecodeUndoesEncode | crates/rios-protocol/src/dns.rs:120-203 | decoding an encoded message returns it with canonical names, exactly unless an answer is compressed against 127 labels |
| DnsRoundTrip.DecodedIsCanonical | crates/rios-protocol/src/dns.rs:152-203 | whatever the bytes, a decoded message has canonical names and bounded fields |
| DnsFormat.NameExactly | crates/rios-protocol/src/dns.rs:33-48 | a text names a host exactly when, but for one final dot, it is labels of 1 to 63 host characters, 253 bytes at most; the name is its lower case |
| DnsFormat.ReadsExactly | crates/rios-protocol/src/dns.rs:57-96 | a name is read at a place exactly when the bytes spell one, through backward pointers, in at most 128 steps |
| DnsFormat.DecodesExactly | crates/rios-protocol/src/dns.rs:152-202 | bytes decode to a message exactly when they are that message: frame, question, and a row of records that ends with the bytes |
| DnsFormat.EncodesExactly | crates/rios-protocol/src/dns.rs:120-150 | a message encodes exactly when its code and answers fit and its size, with answers named like the question compressed, is at most 512 bytes |
| DnsFormat.UnnamedIsRefused | crates/rios-protocol/src/dns.rs:120-150 | a message with a name that is no host name is not encoded |
| DnsRoundTrip.LongestNameFailsToDecode | crates/rios-protocol/src/dns.rs:63-96 | the concrete message that encodes and does not decode |

## Left out

- All frontends, the CLI, configuration rendering, tracing, counters of received frames and display functions: observation or I/O.
- QoS scheduling, BGP, OSPFv3, IPv6 neighbours, OSPF election and flooding around the exchange: other components.
- Route summaries, type 4 and external routes of `crates/rios-routing/src/ospf_spf.rs`: the intra-area part is modelled.
- The order of simultaneous retransmissions inside one OSPF tick follows key order; packet encodings and authentication are not modelled.
- Adjacency.OspfExchange.Receive: the caller's check of area and source precedes the model.
- TcpNetwork.StreamSafety: holds for the runs that never make an erasing delivery and, by `TcpNetwork.SafeExactly`, throughout no others.
- TCP connection tables, listener and connection limits, idle timeout and reuse of a socket: a run ends with its one connection. Segment encoding and checksums are not modelled.
- StpNetwork.SpanningTree: about stable states; convergence to one is not modelled. BPDU encoding, the VLAN table and port channels are left out; an instance is one VLAN.
- The binary heaps of the event queue and of the path search are a set and a multiset with their least element: their array layout is not modelled.
- The lab's random stream is a parameter of each transmission; devices' own frame checks are a parameter of sending and delivery.
- NatRuns.RepliesComeBack: packets are abstracted to addresses, ports and protocol; rewriting a decodable packet always succeeds, so encoding failures and checksums are not modelled.
- Access lists of NAT rules are the set of addresses they permit.
- DHCP client leases, relays, message encoding and the removal of bindings by a configuration change are left out.
- LsaChecksum.Insert: sums are unbounded integers; 64-bit overflow would need an advertisement far beyond any packet.
- DNS names are byte sequences; the reader's UTF-8 check is subsumed by the ASCII check of names, and all errors are one.
