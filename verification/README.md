# GoBAT: a verified model

GoBAT generates UDP background traffic between pods and accounts for every packet.
This project models that accounting in Dafny and proves what it guarantees.

A client stream runs three goroutines: a sender that paces numbered packets, a reader
that matches replies to pending numbers, and a timeout handler that walks a cursor over
the numbers, counts overdue ones as dropped, and decides when to dial the destination
again. An echo server keeps a session per client address and counts missing and late
packets while a sweeper evicts idle sessions. The network between them loses,
duplicates and reorders, and after a redial packets may reach another server.

| file | what it holds |
|---|---|
| `Client.dfy`, `Protocol.dfy` | the stream state, its atomic updates, and the step system of sender, reader, timeout handler, network and servers; a run is any sequence of steps, a step that is not enabled changes nothing |
| `Accounting.dfy`, `Measured.dfy` | what holds in every state of every run; the times in it are readings of the clock |
| `Loops.dfy`, `UdpStream.dfy` | bursts and sweeps as loops; the stream as a class with the code's fields, proved against the same functions |
| `Redial.dfy` | the redial controller over every history of settled numbers |
| `Pacing.dfy`, `Paced.dfy`, `Backlog.dfy` | the send target in 64-bit arithmetic; the step system under the sender's schedule of wake-ups and suspensions; how many packets can be pending |
| `Sessions.dfy`, `UdpServer.dfy` | the server's counters, the gap theorem, eviction running beside the reader; the server as a class over a map of session objects |
| `Metrics.dfy`, `SendCounters.dfy`, `Shutdown.dfy` | re-registration of a stream's metrics; what it does to the send counters, whose increments run outside the mutex; teardown with the wait group |
| `Framing.dfy` | headers, server information and padding in byte buffers, there and back |
| `PciAllocator.dfy` | in-place assignment of PCI addresses to interfaces |
| `Pairing.dfy` | grouping pairing lines by source and picking one of each group |
| `Config.dfy`, `Common.dfy`, `Sets.dfy` | configuration and units; shared definitions; finite-set facts |

Assumptions. There is one clock and it never runs backwards (the code reads wall time).
A failed write puts nothing on the wire. Rate and timeouts are fixed for a stream. A
server sees one stream per client address. Round-trip sums are whole microseconds (the
code adds them up in floating point, exact below 2^53). In the step system the redial
code after a drop, with its two clock readings and the dial, is one step that ends at
the second reading.

"A redial" means that the timeout handler calls redialDestination, whose outcome is an
input of the model. With an unchanged address that function returns without dialling
(pkg/tgen/udp.go:479-480), which counts as success; a call that dials brings another
server into play.

Results worth knowing:

- The accounts always balance. The strict guard of the sweep keeps the cursor off the
  number the sender still holds, and that is what makes them balance.
- "Dropped means timed out" holds as: when a number is dropped its send stamp is older
  than the timeout. The converse fails for the newest number, which is never dropped:
  if sending stops, a lost last packet stays pending for ever
  (`Accounting.NewestStaysPending`, `Accounting.NewestCanBeOverdue`). When a sweep
  ends, of the numbers that went out, were not received and are timed out, exactly
  those below the newest are dropped (`Accounting.DroppedIff`).
- What a server misses is sure to be covered by what the client dropped, failed to
  send and still awaits exactly when no other server can be handed a packet
  (`Accounting.EndToEndIff`). After a move to another server it need not be
  (`Accounting.EndToEndNeedsOneServer`). `Accounting.EndToEndExact` says what it is
  made of in any case.
- After a re-registration beside the sender the exposed send counters may be ahead of
  what was counted by any number of packets, or behind by one, until the next one
  (`SendCounters.PossibleDrifts`).
- The send target is the floor of active time times rate exactly while that product is
  below 2^63 (`Pacing.TargetExactIff`).

## Model

| member | source | states |
|---|---|---|
| Accounting.Conservation | pkg/tgen/udp.go:438-466 | in every interleaving each number taken is in exactly one of failed, received, dropped, pending, in hand, and the counters are the sizes of these sets |
| Accounting.CountersBalance | pkg/tgen/udp.go:438-466 | whenever the sender is between packets, taken = sent + failed and sent = received + dropped + pending |
| Accounting.OutcomesAreFinal | pkg/tgen/udp.go:254-269 | along a run, what was counted as received, dropped or failed stays counted; cursor, numbers and clock never go back |
| Accounting.CursorTheorem | pkg/tgen/udp.go:302-355 | pending numbers lie between the cursor and the newest; the newest is never dropped; after a failed write the number is still pending, and once withdrawn it was neither dropped nor received |
| Accounting.RoundTripIntegrity | pkg/tgen/udp.go:249-269 | under duplicate and late replies each number counts at most once, test replies never; the round-trip total is the sum over counted replies of recorded receive time minus the send stamp stored with the number, no term negative |
| Accounting.RoundTripNeverShrinks | pkg/tgen/udp.go:263-265 | no step of a run lowers the round-trip total, so the counter it feeds never sees a negative increment |
| Accounting.SweepLeavesNothingOverdue | pkg/tgen/udp.go:302-356 | whenever a sweep ends, by its guard or at a packet that is not overdue, and whatever ran meanwhile, no number below the newest is pending and overdue |
| Accounting.RoundTripBound | pkg/tgen/udp.go:263-269 | a reply counted after a sweep that ended at T, to a number then below the newest, took at most packetTimeout plus the time since T |
| Measured.RoundTripByTheClock | pkg/tgen/udp.go:263-265 | in every run the round-trip total is the sum, over the replies read while their number was pending, of the time by the clock since the stored stamp |
| Measured.ReplyCounts | pkg/tgen/udp.go:254-269 | in every run, reading a reply to a pending number adds the clock's time less the number's send stamp to the round-trip total and one to the received ones, and takes the number out; any other reply changes nothing |
| Measured.ReceivedWhen | pkg/tgen/udp.go:263-269 | every entry of a received number was made by the step that read its reply, with the clock of that step |
| Measured.DroppedWhen | pkg/tgen/udp.go:309-316 | every entry of a dropped number was made by the check that found it at the cursor, with the clock of that check |
| Measured.StampedWhen | pkg/tgen/udp.go:439-452 | every send stamp is what the clock said when the sender, holding that number, read it |
| Measured.SettledWhen | pkg/tgen/udp.go:319-330 | the redial code's two readings for a dropped number are the clock at the beginning and the end of the step that moved the cursor past it |
| Measured.PacketArrives | pkg/tapp/udp.go:161-203 | a server handed a packet that is on the wire logs it with the clock and its reply becomes available; no other packet arrives |
| Measured.TestPacketGoesOut | pkg/tgen/udp.go:367-384 | test packets bear number -1, take no number and leave nothing pending |
| Accounting.DroppedMeansTimedOut | pkg/tgen/udp.go:309-316 | whenever a number was dropped, its send stamp was more than packetTimeout seconds old |
| Accounting.DroppedIff | pkg/tgen/udp.go:302-356 | whenever a sweep ends, a number counts as dropped iff it went out, was not received, its send stamp is more than packetTimeout seconds old, and it is not the newest |
| Accounting.NewestStaysPending | pkg/tgen/udp.go:302 | without a further number and without a reply to it, the newest number stays pending through any steps |
| Accounting.NewestCanBeOverdue | pkg/tgen/udp.go:302 | a run that leaves the newest number pending beyond its timeout with the sender idle |
| Accounting.RedialCountsDroppedNumbers | pkg/tgen/udp.go:319-349 | in every run the redial controller counts iff its last redial succeeded; its counter is positive only then, the numbers just below the cursor were then all dropped, it is the longest such run, and for domain names it is at most packetTimeout * sendRate |
| Accounting.RedialAfterDial | pkg/tgen/udp.go:319-349 | in every run, after a successful redial at number i the next redial comes at number j iff the destination is a domain name and the packetTimeout * sendRate + 1 numbers up to j all lie above i and were dropped |
| Accounting.RedialAfterFailure | pkg/tgen/udp.go:324-340 | in every run, from the start and after a failed redial at number i, with f the first dropped number above it, a redial comes at number j iff the destination is a domain name, j was dropped, and the second reading there is more than redialTimeout seconds after the first reading at f |
| Accounting.RedialBacksOff | pkg/tgen/udp.go:329-339 | in every run, after a failed redial the next one is more than redialTimeout seconds later |
| Accounting.EndToEndExact | pkg/tapp/udp.go:187-195 | under any loss, duplication and reordering and any servers, one server's missing minus late plus its surplus arrivals is exactly the number of its gaps among failed, dropped, pending and received numbers |
| Accounting.EndToEnd | pkg/tapp/udp.go:187-195 | so missing minus late is at most client dropped + failed + pending + the numbers received that this server never got, and those reached other servers |
| Accounting.EndToEndOneServer | pkg/tapp/udp.go:187-195 | with one server throughout, missing minus late is at most client dropped + failed + pending |
| Accounting.EndToEndNeedsOneServer | pkg/tgen/udp.go:492-507 | for any two servers there is a run in which the second misses a number although the client has received everything |
| Accounting.EndToEndIff | pkg/tapp/udp.go:187-195 | with packets handed to given servers only, client dropped + failed + pending cover one server's missing minus late in every run iff that server is the only one |
| Protocol.InvAlways | pkg/tgen/udp.go:225-471 | the inductive invariant of the step system holds after every run |
| Protocol.NextKeepsInv | pkg/tgen/udp.go:225-471 | each atomic step of sender, reader, timeout handler, server and clock keeps that invariant |
| Loops.SendOneEffect | pkg/tgen/udp.go:439-465 | a packet that fails to encode or write uses up its number and changes only the failure count; one that goes out is the newest pending; stamp order is kept |
| Loops.BurstOrdered | pkg/tgen/udp.go:438-467 | a burst ends at its target and keeps stamps in order of numbers |
| Loops.BurstEffect | pkg/tgen/udp.go:438-467 | after a burst exactly the numbers that were encoded and written are added to pending, with their send times |
| Loops.BurstCounts | pkg/tgen/udp.go:438-467 | a burst takes as many numbers as it sends and fails, pending grows by those sent, nothing else changes |
| Loops.WalkRefinesFullScan | pkg/tgen/udp.go:302-356 | with a moving clock the sweep with early exit drops all that was overdue when it began, nothing that was not overdue when it ended, and leaves nothing overdue |
| Loops.FrozenWalkIsFullScan | pkg/tgen/udp.go:302-356 | with a clock that stands still it drops exactly the overdue numbers below the newest |
| Loops.WalkCounts | pkg/tgen/udp.go:312-317 | a sweep counts as dropped what it removes from pending and changes nothing but the cursor besides |
| Loops.WalkEventsCoverWalk | pkg/tgen/udp.go:319-350 | a sweep reports every number it passes, in order: as dropped, with the redial code's readings and outcome there, exactly when it was pending |
| Loops.WalkRedialIsRun | pkg/tgen/udp.go:319-350 | a sweep takes the redial controller along its history by exactly the reported events |
| Loops.ReachableIsOrdered | pkg/tgen/udp.go:438-467 | every reachable state has pending numbers between cursor and newest, and send stamps in order and not later than now, as the sweep's results ask |
| Loops.SendOneIsARun | pkg/tgen/udp.go:439-465 | sending one packet is a run of the step system, on each of its three paths |
| Loops.TurnIsARun | pkg/tgen/udp.go:302-354 | one turn of the sweep, with the redial decision at its own two later clock readings, is a run of the step system |
| UdpStream.UdpStream.constructor | pkg/tgen/udp.go:546-559 | a new stream satisfies the invariant and starts from zero |
| UdpStream.UdpStream.SendPacket | pkg/tgen/udp.go:439-465 | the in-place code does what SendOne says; a failure leaves the pending map as it was |
| UdpStream.UdpStream.SendUntil | pkg/tgen/udp.go:438-467 | the send loop computes the burst function |
| UdpStream.UdpStream.SendBurst | pkg/tgen/udp.go:435-467 | a wake-up moves the sender to the paced target and no further |
| UdpStream.UdpStream.ReadReply | pkg/tgen/udp.go:249-269 | a reply is counted exactly when it is no test reply and its number is pending, and then the number is removed |
| UdpStream.UdpStream.AfterDrop | pkg/tgen/udp.go:324-340 | the redial code takes the controller's step and dials exactly when the controller attempts |
| UdpStream.UdpStream.TurnAtCursor | pkg/tgen/udp.go:307-354 | one iteration drops, passes or leaves the number at the cursor, and updates the redial variables accordingly, from two further clock readings |
| UdpStream.UdpStream.Sweep | pkg/tgen/udp.go:302-356 | the sweep loop computes the walk, terminates, and moves the redial controller by the events of the walk |
| Redial.CounterIsDropRun | pkg/tgen/udp.go:324-349 | over every history: counter positive implies counting mode; there it equals the longest run of drops since the last answer or redial; at most the threshold for domain names |
| Redial.CountingIffDialled | pkg/tgen/udp.go:332-339 | over every history, startTimeout is -1 iff there was a redial and the last one succeeded |
| Redial.NextAttempt | pkg/tgen/udp.go:326-339 | while startTimeout is -1 a redial happens on an event iff it is a drop preceded by packetTimeout * sendRate uninterrupted drops and the destination is a domain name |
| Redial.NextAttemptAfterDial | pkg/tgen/udp.go:326-349 | after a successful redial the next one happens on an event iff that event ends packetTimeout * sendRate + 1 consecutive drops since and the destination is a domain name |
| Redial.NextAttemptAfterFailure | pkg/tgen/udp.go:324-340 | from the start, and after a failed redial, the next one happens on an event iff it is a drop more than redialTimeout after the first drop since and the destination is a domain name, whatever was answered in between |
| Redial.ArmedByFirstDrop | pkg/tgen/udp.go:324-325 | idle means no drop since the last redial; armed means startTimeout is the reading of the first drop since then, whatever was answered in between |
| Redial.ArmedAttempt | pkg/tgen/udp.go:329-332 | in armed mode a redial happens on an event iff it is a drop more than redialTimeout after the first drop since the last redial and the destination is a domain name |
| Redial.FailedDialBacksOff | pkg/tgen/udp.go:329-339 | after a failed redial the next one is more than redialTimeout later, over every history with readings in order |
| Redial.AddressNeverRedialled | pkg/tgen/udp.go:329 | a destination that is not a domain name is never redialled |
| Pacing.TargetExactIff | pkg/tgen/udp.go:436 | the 64-bit computation gives the floor of active * rate / 10^6 iff the product is below 2^63 |
| Pacing.TargetOverflows | pkg/tgen/udp.go:436 | an active time at 500 packets a second for which the target is negative |
| Pacing.NoDrift | pkg/tgen/udp.go:429-438 | after a wake-up the numbers taken are the floor of active time times rate, whatever the wake-ups before |
| Pacing.BetweenWakes | pkg/tgen/udp.go:429-438 | between any two wake-ups the sender takes the floor or ceiling of rate times active time between them; none for suspended time |
| Pacing.SuspensionsDoNotCount | pkg/tgen/udp.go:429-433 | cutting all suspensions out of a history, and moving later wake-ups forward by their measured length, changes no number taken, at any rate and also where the target overflows |
| Paced.ScheduleIsARun | pkg/tgen/udp.go:424-470 | what the sender does under its loop of wake-ups, bursts and suspensions, with everything else running, is a run of the step system |
| Paced.SenderFollowsPacer | pkg/tgen/udp.go:424-470 | under every schedule, outside bursts, the numbers taken and the pause period are those of the pacer after the same wake-ups and suspensions, whose readings are in order |
| Paced.PauseIsSuspension | pkg/tgen/udp.go:429-433 | in every schedule the pause period, with a suspension under way, is the time by the clock spent suspended |
| Paced.BurstBegunBy | pkg/tgen/udp.go:436 | in every schedule each burst was begun by a wake-up, and its active time is the clock then less the start and the time really spent suspended |
| Paced.TakenByTheClock | pkg/tgen/udp.go:429-438 | while targets fit in 64 bits, a sender between bursts has taken the floor of rate times active time by the clock at its last wake-up |
| Paced.Resumes | pkg/tgen/udp.go:430-433 | a suspended sender may always go on; its pause period is then the time spent suspended so far, and the pause is recorded with its two readings |
| Paced.BurstsTakeTotals | pkg/tgen/udp.go:436-452 | while targets fit in 64 bits, each burst takes the numbers up to the floor of active time times rate and stamps them with its time |
| Backlog.PendingBound | pkg/tgen/udp.go:302-345 | under every schedule with instantaneous bursts at most gap of active time apart, whenever a sweep ends at most floor((timeout + gap) * rate / 10^6) + 1 packets are pending |
| Backlog.PendingBoundIsMet | pkg/tgen/udp.go:302-345 | a schedule in which exactly that many are pending |
| Sessions.ReplayShape | pkg/tapp/udp.go:181-195 | a session's maximum is the highest number that arrived, and missing minus late is that maximum less the number of arrivals |
| Sessions.GapTheorem | pkg/tapp/udp.go:187-195 | for any arrivals of one client, missing minus late is the number of gaps below the maximum less repeated and test arrivals |
| Sessions.LateAndMissing | pkg/tapp/udp.go:186-195 | for any arrivals of one client: late are exactly those not above all before them and those below 1, missing is the highest number less the arrivals that are not late, and the session was seen at the last arrival |
| Sessions.DistinctArrivalsCountGaps | pkg/tapp/udp.go:187-195 | for distinct positive arrivals it is the number of gaps |
| Sessions.SessionConservation | pkg/tapp/udp.go:127-196 | over every interleaving of reader and sweeper: live and evicted maxima add up to missing plus in-order arrivals; arrivals are in order or late; the gauge is the map size when the mutex is free; no client heard of within 60 s of the sampled time is evicted |
| Sessions.ReaderHandles | pkg/tapp/udp.go:181-196 | while the mutex is free any packet is handled at the clock's time and counts as in order iff its number is above the client's highest; while it is held none is |
| Sessions.PassEvictsIdle | pkg/tapp/udp.go:124-140 | in whatever order a pass under the mutex visits the sessions, and whatever else is tried meanwhile, when none is left exactly the clients seen within 60 seconds of the sampled time are kept and the gauge has gone down by the number of the others |
| Sessions.PassBegins | pkg/tapp/udp.go:132-134 | the sampled time is the clock's, whatever runs before the sweeper gets the mutex, and then every session is to be visited |
| Sessions.PassCanEnd | pkg/tapp/udp.go:132-140 | such a pass can always be brought to its end |
| UdpServer.UdpServer.constructor | pkg/tapp/udp.go:277-296 | a new server has no sessions and zero counters |
| UdpServer.UdpServer.SessionOf | pkg/tapp/udp.go:182-185 | a session is opened for an unknown client and the gauge raised; known clients are untouched |
| UdpServer.UdpServer.UpdateSession | pkg/tapp/udp.go:186-195 | the update through the session pointer changes one client's session only |
| UdpServer.UdpServer.HandlePacket | pkg/tapp/udp.go:181-196 | the block under the mutex does what the session table's Handle says |
| UdpServer.UdpServer.EvictOlder | pkg/tapp/udp.go:134-139 | the loop keeps exactly the sessions seen recently enough and lowers the gauge once per deletion |
| UdpServer.UdpServer.EvictIdle | pkg/tapp/udp.go:124-140 | the pass under the mutex keeps exactly the sessions seen within 60 seconds of the sampled time and lowers the gauge by the number of the others |
| Metrics.StreamMetrics.constructor | pkg/tgen/udp.go:163-166 | after set-up the six collectors are registered and the counters expose zero |
| Metrics.StreamMetrics.RegisterStreamMetrics | pkg/tgen/udp.go:176-211 | registration never meets an identity already registered, and each of the five counters starts from the amount counted so far |
| Metrics.StreamMetrics.DeRegisterStreamMetrics | pkg/tgen/udp.go:213-217 | removing by identity everything ever registered leaves nothing of the stream and all of the others |
| Metrics.StreamMetrics.ReRegister | pkg/tgen/udp.go:219-222 | after any change of server, also back to an earlier one, the six are registered under the new labels |
| Metrics.StreamMetrics.CountReply | pkg/tgen/udp.go:263-280 | exposed received, dropped and round-trip equal the counted totals after a reply, with or without a change of server |
| Metrics.StreamMetrics.CountDrop | pkg/tgen/udp.go:313-314 | the same after a drop |
| Metrics.StreamMetrics.ExactlySix | pkg/tgen/udp.go:171-211 | the registry then holds exactly six collectors of the stream, all under the current labels |
| SendCounters.NoDriftWithoutReRegistration | pkg/tgen/udp.go:464-465 | until the first re-registration an exposed send counter is what was counted, plus an increment still to be counted |
| SendCounters.DriftOfLastReRegistration | pkg/tgen/udp.go:176-187 | a re-registration beside the sender leaves an exposed send counter ahead by the increments made inside it, less one if it ended between an increment and its count, whatever came before it |
| SendCounters.ExactAfterReRegistrationIff | pkg/tgen/udp.go:176-187 | so with the sender at rest it exposes what was counted iff nothing was incremented inside the last re-registration but a packet still to be counted at its end |
| SendCounters.PossibleDrifts | pkg/tgen/udp.go:464-465 | what a re-registration can leave with the sender at rest: any surplus from zero on, and a deficit of one iff it began between an increment and its count |
| Shutdown.ShutdownSafety | pkg/tgen/udp.go:512-525 | in every interleaving the wait group counts the goroutines that have not called Done, each calls it exactly once and, but for a sender whose set-up failed, not before the stop flag is set; when teardown has returned all are gone, but for such a sender that has yet to count its failure, and no collector of the stream is registered, also after a late re-registration |
| Shutdown.TeardownCanReturn | pkg/tgen/udp.go:512-525 | from wherever a stream stands, teardown can return: its goroutines can always run to their end |
| Shutdown.ReplyCanArrive | pkg/tgen/udp.go:225-284 | as long as the stop flag is not set, the reader can come to handle a reply from any server |
| Shutdown.LabelsFollowReplies | pkg/tgen/udp.go:270-280 | the labels are those of the server whose reply was handled last |
| Shutdown.SixUntilTornDown | pkg/tgen/udp.go:270-280 | until then exactly six collectors are registered, under the last server's labels, and other streams' are untouched |
| Framing.RoundTrip | pkg/tapp/udp.go:159-203 | for any codec of fixed header length that decodes what it encodes: the server answers iff its buffer holds the reply, the reply is max(Length, H + info) bytes, and the client reads back its number and stamp and exactly the server's information |
| Framing.EchoOutcomes | pkg/tapp/udp.go:159-203 | for any receive buffer: nothing is answered iff it is empty, cannot be decoded, or the reply would not fit; else number, send stamp and length are kept, the server's time, information and its length are put in, and what lay behind stays |
| Framing.ReadOutcomes | pkg/tgen/udp.go:238-248 | for any receive buffer: what the client reads is the decoded header and as many bytes behind it as that says |
| Framing.Echo | pkg/tapp/udp.go:159-202 | the in-place echo over the receive buffer computes that reply, with its three failure outcomes |
| Framing.BaseBuffer | pkg/tgen/udp.go:397-417 | the base buffer holds the base header and padding, of the configured size or 2H + 1 when that is too small |
| Framing.Frame | pkg/tgen/udp.go:443-450 | writing the next header leaves the padding as it is |
| Framing.GetPaddingPayload | pkg/util/util.go:142-148 | the payload is all 0xff |
| Framing.Copy | pkg/tapp/udp.go:174-175 | copying into a buffer from a position on, cut off at its end |
| PciAllocator.AllocationConserves | pkg/util/util.go:438-501 | addresses attached in list order followed by those appended are exactly the addresses to place; each appended interface is a non-default SR-IOV one with that PCI address; known interfaces and existing device information are untouched; only an interface with device information can stay unknown |
| PciAllocator.EachDecided | pkg/util/util.go:438-478 | every listed interface, decided from the result: known ones stay; a default one becomes host when more are unknown than there are addresses; any becomes host when none is left; else one without device information becomes SR-IOV with the next PCI address, and one with it stays unknown |
| PciAllocator.ExactCounts | pkg/util/util.go:431-501 | with U unknown interfaces without device information and P addresses: max(0, P - U) appended, max(0, U - P) become host, none unknown, for any order and default flags |
| PciAllocator.HostOnlyWhenExhausted | pkg/util/util.go:444-476 | an interface that is not the default one becomes host only when all addresses went to interfaces listed before it |
| PciAllocator.FirstDefaultBecomesHost | pkg/util/util.go:441-448 | with more unknown interfaces than addresses, the default interface becomes host when no unknown one is listed before it |
| PciAllocator.FirstDefaultIsHostIff | pkg/util/util.go:440-477 | the first default interface without device information, with b plain unknown ones before it, becomes host iff more unknown ones remain from it on than there are addresses, or b is at least the number of addresses |
| PciAllocator.VisitedInvariant | pkg/util/util.go:438-478 | at every iteration unknownCnt is the number of interfaces still unknown, and unknown at the start = still unknown + attached + made host |
| PciAllocator.EveryAddressPlaced | pkg/util/util.go:393-501 | every address of the environment ends up owned by an interface |
| PciAllocator.UnownedInOrder | pkg/util/util.go:393-428 | the addresses no interface owns keep their order and number |
| PciAllocator.FindOwner | pkg/util/util.go:399-419 | the search stops at the first interface that matches by PCI or vDPA address, and marks it only for PCI |
| PciAllocator.MatchingMarks | pkg/util/util.go:399-419 | matching turns an interface into SR-IOV iff it is the first to match one of the addresses and does so by PCI address, and changes nothing else |
| PciAllocator.MatchAddresses | pkg/util/util.go:393-428 | returns the addresses no interface owns, in order, and marks the first PCI matches |
| PciAllocator.CountUnknowns | pkg/util/util.go:431-436 | counts the unknown interfaces |
| PciAllocator.VisitInterface | pkg/util/util.go:440-477 | one iteration, in place, computes the allocator's step |
| PciAllocator.AssignListed | pkg/util/util.go:438-478 | the loop computes the allocation of the listed interfaces |
| PciAllocator.AppendInterfaces | pkg/util/util.go:482-501 | one SR-IOV interface is appended per address left |
| PciAllocator.AssignAddresses | pkg/util/util.go:430-501 | the in-place code computes the allocation |
| PciAllocator.PlaceAddresses | pkg/util/util.go:393-501 | matching and allocation together place every address and respect what was there |
| Pairing.SelectionByName | pkg/tgc/tgc.go:404-418 | no line concerns a pod of another namespace; a pod's line concerns the pod of that name, a deployment's or daemon set's every pod whose name extends it, and no line concerns any other pod |
| Pairing.GroupMembers | pkg/tgc/tgc.go:409-453 | a group holds exactly the pairs of the selected lines with its source |
| Pairing.GroupBySource | pkg/tgc/tgc.go:389-454 | the map has one group per source that passes the filter |
| Pairing.PickOneEach | pkg/tgc/tgc.go:455-462 | one pair per group, the one drawn, whatever order the map is walked in and whatever is drawn |
| Pairing.AvailablePairings | pkg/tgc/tgc.go:389-463 | exactly one pair per distinct source text that passes the filter, taken from a line of that source |

## Left out

- Sockets, DNS, dialling: only their outcomes appear (write succeeded or failed, dial succeeded or failed). Closing and replacing a socket during teardown can block the wait; that teardown finishes is not claimed.
- Failing set-up: the goroutines of a stream are taken to have been started after a successful set-up.
- The msgpack byte format: a codec with a fixed header length that decodes what it encodes is a parameter.
- The class of Metrics.dfy has no method for the sender's increments, which run outside the mutex: SendCounters.dfy models them, one counter at a time.
- The latency summary and floating-point rounding of metric values.
- What happens within the redial step: other goroutines may run between its two readings and the dial; it shares only the socket with them.
- Eviction in the end-to-end bound: a session that is evicted and opened again counts from zero, so the bound is stated for runs without eviction.
- Several streams behind one client address: the server keys sessions by address alone, so its counters mean nothing there.
- Bursts in which sending takes time: in Paced.dfy the clock stands still while a burst runs.
- UdpStream.UdpStream.Sweep: runs with nothing beside it; the readings of its clock are given, one to check a number and two for the redial code; sweeps interleaved with the sender and the reader are covered by Accounting.SweepLeavesNothingOverdue.
- 64-bit overflow elsewhere than in the pacing target.
- Filling in the source's interface and address after the filter, parsing of JSON, YAML, gzip and environment files, profile loading, logging, the informer that starts and stops streams, the HTTP endpoint: copying and library glue.
