/** One client stream, an adversarial network and the echo servers behind the
    destination's name, as a step system: every run is a sequence of atomic steps
    of the sender, the socket reader, the timeout handler, the network and the
    servers, in any order.

    The network may lose, duplicate and reorder: packets and replies once put on
    the wire stay available for ever, and may be delivered any number of times or
    never. A redial may bring another server into play, so a packet may be
    delivered to any server. A failed write puts nothing on the wire. There is one clock, and it
    never runs backwards. */
module Protocol {
  import opened Config
  import opened Client
  import Redial
  import Sessions

  /** Where the sender stands between two atomic steps. */
  datatype SenderPoint =
    | Preamble              // test packets may be sent
    | Ready                 // between packets
    | Numbered              // sequence number taken
    | Stamped(stamp: int)   // send time read
    | Queued(stamp: int)    // number pending, not yet written
    | WriteFailed           // number pending, write failed
    | Withdrawn             // number removed again, failure not yet counted
    | Written               // on the wire, not yet counted

  /** Where the timeout handler stands. */
  datatype ScannerPoint = AtGuard | Admitted | AfterDrop | AfterMiss

  /** A number the stream counted as received or dropped, and when. */
  datatype Event = Event(number: int, at: int)

  /** What happened so far; no step of the system reads it. */
  datatype History = History(
    stamps: map<int, int>,
    written: set<int>,
    failed: set<int>,
    received: seq<Event>,
    dropped: seq<Event>,
    settled: seq<Redial.Settled>,
    arrivals: map<int, seq<Sessions.Arrival>>
  )

  datatype System = System(
    now: Micros,
    client: State,
    sender: SenderPoint,
    scanner: ScannerPoint,
    redial: Redial.State,
    wire: set<Packet>,
    replies: set<Packet>,
    servers: map<int, Sessions.Table>,
    history: History
  )

  /** The session table of server v. */
  function TableOf(servers: map<int, Sessions.Table>, v: int): Sessions.Table {
    if v in servers then servers[v] else Sessions.EMPTY
  }

  /** What server v was handed, in order. */
  function ArrivalsAt(arrivals: map<int, seq<Sessions.Arrival>>, v: int): seq<Sessions.Arrival> {
    if v in arrivals then arrivals[v] else []
  }

  /** The numbers that reached some server. */
  function Arrived(arrivals: map<int, seq<Sessions.Arrival>>): set<int> {
    set v, x | v in arrivals && x in arrivals[v] :: x.number
  }

  const CLIENT_IP := "client"

  function Init(start: Micros): System {
    System(start, FRESH, Preamble, AtGuard, Redial.IDLE, {}, {}, map[],
           History(map[], {}, {}, [], [], [], map[]))
  }

  datatype Step =
    | Tick(t: Micros)
    | SendTestPacket
    | BeginTraffic
    | TakeNumber
    | TakeStamp
    | EncodeFails
    | EnqueueNumber
    | WriteSucceeds
    | WriteFails
    | WithdrawNumber
    | CountFailure
    | CountSuccess
    | ServerHandles(v: int, packet: Packet)
    | ClientReads(reply: Packet)
    | Admit
    | CheckCursor
    | AdvanceCursor(t: Micros, dialOk: bool)

  function SenderNext(s: System, step: Step): System {
    var c, h, n := s.client, s.history, s.client.packetSequence;
    match (step, s.sender)
    case (SendTestPacket, Preamble) => s.(wire := s.wire + {Packet(TEST_NUMBER, s.now)})
    case (BeginTraffic, Preamble) => s.(sender := Ready)
    case (TakeNumber, Ready) => s.(client := NextNumber(c), sender := Numbered)
    case (TakeStamp, Numbered) => s.(sender := Stamped(s.now))
    case (EncodeFails, Stamped(_)) =>
      s.(client := CountFailed(c), sender := Ready, history := h.(failed := h.failed + {n}))
    case (EnqueueNumber, Stamped(t)) =>
      s.(client := Enqueue(c, t), sender := Queued(t), history := h.(stamps := h.stamps[n := t]))
    case (WriteSucceeds, Queued(t)) =>
      s.(wire := s.wire + {Packet(n, t)}, sender := Written, history := h.(written := h.written + {n}))
    case (WriteFails, Queued(_)) => s.(sender := WriteFailed)
    case (WithdrawNumber, WriteFailed) => s.(client := Withdraw(c), sender := Withdrawn)
    case (CountFailure, Withdrawn) =>
      s.(client := CountFailed(c), sender := Ready, history := h.(failed := h.failed + {n}))
    case (CountSuccess, Written) => s.(client := CountSent(c), sender := Ready)
    case _ => s
  }

  function ServerNext(s: System, v: int, packet: Packet): System {
    if packet in s.wire then
      var log := ArrivalsAt(s.history.arrivals, v) + [Sessions.Arrival(packet.number, s.now)];
      s.(servers := s.servers[v := TableOf(s.servers, v).Handle(CLIENT_IP, packet.number, s.now)],
         replies := s.replies + {packet},
         history := s.history.(arrivals := s.history.arrivals[v := log]))
    else s
  }

  function ReaderNext(s: System, reply: Packet): System {
    if reply in s.replies then
      s.(client := Receive(s.client, reply, s.now),
         history := if Accepts(s.client, reply)
                    then s.history.(received := s.history.received + [Event(reply.number, s.now)])
                    else s.history)
    else s
  }

  function ScannerNext(conf: Stream, s: System, step: Step): System {
    var c, h := s.client, s.history;
    match (step, s.scanner)
    case (Admit, AtGuard) =>
      if c.cursor < c.packetSequence then s.(scanner := Admitted) else s
    case (CheckCursor, Admitted) =>
      (match Check(c, s.now, conf.TimeoutMicros())
       case Overdue =>
         s.(client := Drop(c), scanner := AfterDrop,
            history := h.(dropped := h.dropped + [Event(c.cursor, s.now)]))
       case Young => s.(scanner := AtGuard)
       case Settled => s.(scanner := AfterMiss))
    case (AdvanceCursor(t, dialOk), AfterDrop) =>
      if t >= s.now then Settle(conf, s, Redial.Dropped(s.now, t, dialOk)).(now := t) else s
    case (AdvanceCursor(_, _), AfterMiss) => Settle(conf, s, Redial.Missing)
    case _ => s
  }

  /** The cursor moves on; the redial controller learns how the number settled. */
  function Settle(conf: Stream, s: System, e: Redial.Settled): System {
    s.(client := Advance(s.client), scanner := AtGuard,
       redial := Redial.Step(conf, s.redial, e),
       history := s.history.(settled := s.history.settled + [e]))
  }

  /** One atomic step; a step that is not enabled changes nothing. */
  function Next(conf: Stream, s: System, step: Step): System {
    match step
    case Tick(t) => if t >= s.now then s.(now := t) else s
    case ServerHandles(v, packet) => ServerNext(s, v, packet)
    case ClientReads(reply) => ReaderNext(s, reply)
    case Admit => ScannerNext(conf, s, step)
    case CheckCursor => ScannerNext(conf, s, step)
    case AdvanceCursor(_, _) => ScannerNext(conf, s, step)
    case _ => SenderNext(s, step)
  }

  /** The state a run reaches. */
  function Exec(conf: Stream, start: Micros, steps: seq<Step>): System {
    if steps == [] then Init(start)
    else Next(conf, Exec(conf, start, steps[..|steps| - 1]), steps[|steps| - 1])
  }

  // ---------------------------------------------------------------------
  // The inductive invariant

  function Numbers(log: seq<Event>): set<int> {
    set e | e in log :: e.number
  }

  predicate Distinct(log: seq<Event>) {
    forall i, j :: 0 <= i < j < |log| ==> log[i].number != log[j].number
  }

  /** The number the sender holds, which has no fate yet. */
  function Hand(s: System): set<int> {
    if s.sender.Numbered? || s.sender.Stamped? || s.sender.Withdrawn? then {s.client.packetSequence} else {}
  }

  /** The number that is pending although it is not on the wire. */
  function Unwritten(s: System): set<int> {
    if s.sender.Queued? || s.sender.WriteFailed? then {s.client.packetSequence} else {}
  }

  /** How many fates number k has: send failed, received, dropped, pending, or
      still in the sender's hand. */
  function Fates(s: System, k: int): nat {
    var h := s.history;
    (if k in h.failed then 1 else 0) + (if k in Numbers(h.received) then 1 else 0)
    + (if k in Numbers(h.dropped) then 1 else 0) + (if k in s.client.pending then 1 else 0)
    + (if k in Hand(s) then 1 else 0)
  }

  /** A number has one fate once taken, and none before; it is awaited or decided
      exactly when it was written or is about to be. */
  predicate FateOf(s: System, k: int) {
    var h := s.history;
    && Fates(s, k) == (if 1 <= k <= s.client.packetSequence then 1 else 0)
    && (k in Numbers(h.received) || k in Numbers(h.dropped) || k in s.client.pending
        <==> k in h.written || k in Unwritten(s))
    && (k in Unwritten(s) ==> k in s.client.pending && k !in h.written)
  }

  ghost predicate OneFate(s: System) {
    forall k :: FateOf(s, k)
  }

  predicate Counters(s: System) {
    var c, h := s.client, s.history;
    && Distinct(h.received) && Distinct(h.dropped)
    && c.received == |h.received|
    && c.dropped == |h.dropped|
    && c.sendFailed == |h.failed|
    && c.sent + (if s.sender.Written? then 1 else 0) == |h.written|
    && (s.sender.Written? ==> c.packetSequence in h.written)
  }

  predicate CursorBounds(s: System) {
    var c := s.client;
    && 1 <= c.cursor
    && (s.sender.Preamble? ==> c.packetSequence == 0)
    && (!s.sender.Preamble? && !s.sender.Ready? ==> c.packetSequence >= 1)
    && (c.cursor <= c.packetSequence || c.cursor == 1)
    && (forall k :: k in c.pending ==> c.cursor <= k <= c.packetSequence)
    && (!s.scanner.AtGuard? ==> c.cursor < c.packetSequence)
    && (s.scanner.AfterDrop? || s.scanner.AfterMiss? ==> c.cursor !in c.pending)
  }

  predicate StampOrder(s: System) {
    var c, h := s.client, s.history;
    && (forall k :: k in c.pending ==> k in h.stamps && c.pending[k] == h.stamps[k])
    && (forall k :: k in h.stamps ==> 1 <= k <= c.packetSequence && h.stamps[k] <= s.now)
    && (forall j, k :: j in h.stamps && k in h.stamps && j < k ==> h.stamps[j] <= h.stamps[k])
    && (s.sender.Numbered? || s.sender.Stamped? ==> c.packetSequence !in h.stamps)
    && (s.sender.Stamped? ==> s.sender.stamp <= s.now && forall k :: k in h.stamps ==> h.stamps[k] <= s.sender.stamp)
    && (s.sender.Queued? ==> c.packetSequence in h.stamps && h.stamps[c.packetSequence] == s.sender.stamp)
  }

  predicate Genuine(h: History, p: Packet) {
    p.number == TEST_NUMBER || (p.number in h.written && p.number in h.stamps && p.sendTimeStamp == h.stamps[p.number])
  }

  /** Each server's table is what its arrivals make it. */
  ghost predicate Replayed(servers: map<int, Sessions.Table>, arrivals: map<int, seq<Sessions.Arrival>>) {
    forall v :: TableOf(servers, v) == Sessions.Replay(CLIENT_IP, ArrivalsAt(arrivals, v))
  }

  ghost predicate Network(s: System) {
    var h := s.history;
    && (forall p :: p in s.wire ==> Genuine(h, p))
    && (forall r :: r in s.replies ==> r in s.wire && r.number in Arrived(h.arrivals))
    && (forall k :: k in Arrived(h.arrivals) ==> k == TEST_NUMBER || k in h.written)
    && (forall e :: e in h.received ==> e.number in Arrived(h.arrivals))
    && Replayed(s.servers, h.arrivals)
  }

  /** Sum over a log of the time each number spent under way. */
  function SumElapsed(log: seq<Event>, stamps: map<int, int>): int
    requires forall e :: e in log ==> e.number in stamps
  {
    if log == [] then 0
    else
      var e := log[|log| - 1];
      SumElapsed(log[..|log| - 1], stamps) + (e.at - stamps[e.number])
  }

  predicate RoundTrips(s: System) {
    var h := s.history;
    && (forall e :: e in h.received ==> e.number in h.stamps && h.stamps[e.number] <= e.at)
    && s.client.roundTrip == SumElapsed(h.received, h.stamps)
  }

  /** The redial controller has seen one event per number below the cursor. */
  predicate Scanned(conf: Stream, s: System) {
    var c, h := s.client, s.history;
    && |h.settled| == c.cursor - 1
    && (forall k :: 1 <= k < c.cursor ==> (h.settled[k - 1].Dropped? <==> k in Numbers(h.dropped)))
    && (forall k :: k in Numbers(h.dropped) ==> k < c.cursor || (s.scanner.AfterDrop? && k == c.cursor))
    && (s.scanner.AfterDrop? ==> c.cursor in Numbers(h.dropped))
    && s.redial == Redial.Run(conf, h.settled)
  }

  predicate DropsWereOverdue(conf: Stream, s: System) {
    forall e :: e in s.history.dropped ==>
      && e.number in s.history.stamps
      && e.at <= s.now
      && e.at - s.history.stamps[e.number] > conf.TimeoutMicros()
  }

  ghost predicate Inv(conf: Stream, s: System) {
    && OneFate(s) && Counters(s) && CursorBounds(s) && StampOrder(s)
    && Network(s) && RoundTrips(s) && Scanned(conf, s) && DropsWereOverdue(conf, s)
  }

  lemma NumbersExtend(log: seq<Event>, e: Event)
    ensures Numbers(log + [e]) == Numbers(log) + {e.number}
    ensures Distinct(log) && e.number !in Numbers(log) ==> Distinct(log + [e])
  {
    assert forall x :: x in log + [e] <==> x in log || x == e;
    if e.number !in Numbers(log) {
      assert forall i :: 0 <= i < |log| ==> log[i] in log;
    }
  }

  /** A stamp recorded later does not change the sum over numbers stamped earlier. */
  lemma {:induction false} SumElapsedFrame(log: seq<Event>, stamps: map<int, int>, n: int, t: int)
    requires forall e :: e in log ==> e.number in stamps
    requires n !in stamps
    ensures SumElapsed(log, stamps[n := t]) == SumElapsed(log, stamps)
  {
    if log != [] {
      SumElapsedFrame(log[..|log| - 1], stamps, n, t);
      assert log[|log| - 1] in log;
    }
  }

  lemma SenderKeepsFates(s: System, step: Step)
    requires OneFate(s) && CursorBounds(s)
    ensures OneFate(SenderNext(s, step))
  {
    forall k
      ensures FateOf(SenderNext(s, step), k)
    {
      assert FateOf(s, k);
    }
  }

  lemma SenderKeepsCounters(s: System, step: Step)
    requires OneFate(s) && Counters(s)
    ensures Counters(SenderNext(s, step))
  {
    assert FateOf(s, s.client.packetSequence);
  }

  lemma SenderKeepsBounds(s: System, step: Step)
    requires CursorBounds(s)
    ensures CursorBounds(SenderNext(s, step))
  {
  }

  lemma SenderKeepsStamps(s: System, step: Step)
    requires StampOrder(s) && CursorBounds(s)
    ensures StampOrder(SenderNext(s, step))
  {
  }

  lemma SenderKeepsNetwork(s: System, step: Step)
    requires Network(s) && StampOrder(s)
    ensures Network(SenderNext(s, step))
  {
  }

  lemma SenderKeepsLogs(conf: Stream, s: System, step: Step)
    requires RoundTrips(s) && Scanned(conf, s) && DropsWereOverdue(conf, s) && StampOrder(s)
    ensures var s' := SenderNext(s, step); RoundTrips(s') && Scanned(conf, s') && DropsWereOverdue(conf, s')
  {
    if step.EnqueueNumber? && s.sender.Stamped? {
      SumElapsedFrame(s.history.received, s.history.stamps, s.client.packetSequence, s.sender.stamp);
    }
  }

  lemma ArrivedExtends(arrivals: map<int, seq<Sessions.Arrival>>, v: int, x: Sessions.Arrival)
    ensures Arrived(arrivals[v := ArrivalsAt(arrivals, v) + [x]]) == Arrived(arrivals) + {x.number}
  {
    var after := arrivals[v := ArrivalsAt(arrivals, v) + [x]];
    assert v in after && x in after[v];
    forall k | k in Arrived(arrivals)
      ensures k in Arrived(after)
    {
      var u, y :| u in arrivals && y in arrivals[u] && y.number == k;
      assert u in after && y in after[u];
    }
    forall k | k in Arrived(after)
      ensures k in Arrived(arrivals) + {x.number}
    {
      var u: int, y: Sessions.Arrival :| u in after && y in after[u] && y.number == k;
      assert y == x || (u in arrivals && y in arrivals[u]);
    }
  }

  lemma ServerKeepsReplayed(s: System, v: int, packet: Packet)
    requires Replayed(s.servers, s.history.arrivals)
    ensures var s' := ServerNext(s, v, packet); Replayed(s'.servers, s'.history.arrivals)
  {
    var s' := ServerNext(s, v, packet);
    var before, after := s.history.arrivals, s'.history.arrivals;
    Sessions.ReplayExtends(CLIENT_IP, ArrivalsAt(before, v), Sessions.Arrival(packet.number, s.now));
    forall u
      ensures TableOf(s'.servers, u) == Sessions.Replay(CLIENT_IP, ArrivalsAt(after, u))
    {
      assert TableOf(s.servers, u) == Sessions.Replay(CLIENT_IP, ArrivalsAt(before, u));
    }
  }

  lemma ServerKeepsNetwork(s: System, v: int, packet: Packet)
    requires Network(s)
    ensures Network(ServerNext(s, v, packet))
  {
    ArrivedExtends(s.history.arrivals, v, Sessions.Arrival(packet.number, s.now));
    ServerKeepsReplayed(s, v, packet);
  }

  lemma ServerKeepsInv(conf: Stream, s: System, v: int, packet: Packet)
    requires Inv(conf, s)
    ensures Inv(conf, Next(conf, s, ServerHandles(v, packet)))
  {
    ServerKeepsNetwork(s, v, packet);
    forall k
      ensures FateOf(Next(conf, s, ServerHandles(v, packet)), k)
    {
      assert FateOf(s, k);
    }
  }

  lemma ReaderKeepsFates(s: System, reply: Packet)
    requires OneFate(s) && Network(s) && Counters(s)
    ensures var s' := ReaderNext(s, reply); OneFate(s') && Counters(s')
  {
    NumbersExtend(s.history.received, Event(reply.number, s.now));
    assert FateOf(s, reply.number);
    forall k
      ensures FateOf(ReaderNext(s, reply), k)
    {
      assert FateOf(s, k);
    }
  }

  lemma ReaderKeepsRest(conf: Stream, s: System, reply: Packet)
    requires CursorBounds(s) && StampOrder(s) && Network(s) && Scanned(conf, s) && DropsWereOverdue(conf, s)
    ensures var s' := ReaderNext(s, reply);
            CursorBounds(s') && StampOrder(s') && Network(s') && Scanned(conf, s') && DropsWereOverdue(conf, s')
  {
  }

  lemma ReaderKeepsRoundTrips(s: System, reply: Packet)
    requires RoundTrips(s) && StampOrder(s) && Network(s)
    ensures RoundTrips(ReaderNext(s, reply))
  {
    assert ReaderNext(s, reply).history.received[..|s.history.received|] == s.history.received;
  }

  lemma ScannerKeepsFates(conf: Stream, s: System, step: Step)
    requires OneFate(s) && CursorBounds(s)
    ensures OneFate(ScannerNext(conf, s, step))
  {
    NumbersExtend(s.history.dropped, Event(s.client.cursor, s.now));
    assert FateOf(s, s.client.cursor);
    forall k
      ensures FateOf(ScannerNext(conf, s, step), k)
    {
      assert FateOf(s, k);
    }
  }

  lemma ScannerKeepsCounters(conf: Stream, s: System, step: Step)
    requires OneFate(s) && CursorBounds(s) && Counters(s)
    ensures var s' := ScannerNext(conf, s, step); CursorBounds(s') && Counters(s')
  {
    NumbersExtend(s.history.dropped, Event(s.client.cursor, s.now));
    assert FateOf(s, s.client.cursor);
  }

  lemma ScannerKeepsStamps(conf: Stream, s: System, step: Step)
    requires StampOrder(s) && CursorBounds(s) && DropsWereOverdue(conf, s)
    ensures var s' := ScannerNext(conf, s, step); StampOrder(s') && DropsWereOverdue(conf, s')
  {
  }

  lemma ScannerKeepsNetwork(conf: Stream, s: System, step: Step)
    requires Network(s) && RoundTrips(s)
    ensures var s' := ScannerNext(conf, s, step); Network(s') && RoundTrips(s')
  {
  }

  lemma ScannerKeepsScanned(conf: Stream, s: System, step: Step)
    requires Scanned(conf, s) && CursorBounds(s)
    ensures Scanned(conf, ScannerNext(conf, s, step))
  {
    var s', log := ScannerNext(conf, s, step), s.history.settled;
    NumbersExtend(s.history.dropped, Event(s.client.cursor, s.now));
    if s'.history.settled != log {
      Redial.RunExtends(conf, log, s'.history.settled[|log|]);
    }
  }

  predicate IsScannerStep(step: Step) {
    step.Admit? || step.CheckCursor? || step.AdvanceCursor?
  }

  lemma SenderKeepsInv(conf: Stream, s: System, step: Step)
    requires Inv(conf, s)
    requires !step.Tick? && !step.ServerHandles? && !step.ClientReads? && !IsScannerStep(step)
    ensures Inv(conf, Next(conf, s, step))
  {
    SenderKeepsFates(s, step);
    SenderKeepsCounters(s, step);
    SenderKeepsBounds(s, step);
    SenderKeepsStamps(s, step);
    SenderKeepsNetwork(s, step);
    SenderKeepsLogs(conf, s, step);
    assert Next(conf, s, step) == SenderNext(s, step);
  }

  lemma ReaderKeepsInv(conf: Stream, s: System, reply: Packet)
    requires Inv(conf, s)
    ensures Inv(conf, Next(conf, s, ClientReads(reply)))
  {
    ReaderKeepsFates(s, reply);
    ReaderKeepsRest(conf, s, reply);
    ReaderKeepsRoundTrips(s, reply);
  }

  lemma ScannerKeepsInv(conf: Stream, s: System, step: Step)
    requires Inv(conf, s) && IsScannerStep(step)
    ensures Inv(conf, Next(conf, s, step))
  {
    ScannerKeepsFates(conf, s, step);
    ScannerKeepsCounters(conf, s, step);
    ScannerKeepsStamps(conf, s, step);
    ScannerKeepsNetwork(conf, s, step);
    ScannerKeepsScanned(conf, s, step);
    assert Next(conf, s, step) == ScannerNext(conf, s, step);
  }

  lemma TickKeepsInv(conf: Stream, s: System, t: Micros)
    requires Inv(conf, s)
    ensures Inv(conf, Next(conf, s, Tick(t)))
  {
    forall k
      ensures FateOf(Next(conf, s, Tick(t)), k)
    {
      assert FateOf(s, k);
    }
  }

  lemma NextKeepsInv(conf: Stream, s: System, step: Step)
    requires Inv(conf, s)
    ensures Inv(conf, Next(conf, s, step))
  {
    if step.Tick? {
      TickKeepsInv(conf, s, step.t);
    } else if step.ServerHandles? {
      ServerKeepsInv(conf, s, step.v, step.packet);
    } else if step.ClientReads? {
      ReaderKeepsInv(conf, s, step.reply);
    } else if IsScannerStep(step) {
      ScannerKeepsInv(conf, s, step);
    } else {
      SenderKeepsInv(conf, s, step);
    }
  }

  lemma {:induction false} InvAlways(conf: Stream, start: Micros, steps: seq<Step>)
    ensures Inv(conf, Exec(conf, start, steps))
  {
    if steps != [] {
      InvAlways(conf, start, steps[..|steps| - 1]);
      NextKeepsInv(conf, Exec(conf, start, steps[..|steps| - 1]), steps[|steps| - 1]);
    }
  }
}
