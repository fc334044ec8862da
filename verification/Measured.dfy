/** The times in the accounts are readings of the clock: which step of a run made each
    entry, and what the clock said then. */
module Measured {
  import opened Config
  import opened Client
  import opened Protocol
  import Accounting
  import Redial
  import Sessions

  /** What one step adds to the record of a run. */
  lemma StepRecords(conf: Stream, s: System, step: Step)
    ensures var h, s' := s.history, Next(conf, s, step); var h' := s'.history;
            && (h'.received == h.received
                || (step.ClientReads? && h'.received == h.received + [Event(step.reply.number, s.now)]))
            && (h'.dropped == h.dropped
                || (step.CheckCursor? && h'.dropped == h.dropped + [Event(s.client.cursor, s.now)]))
  {
  }

  lemma StepSettles(conf: Stream, s: System, step: Step)
    ensures var h, s' := s.history, Next(conf, s, step); var h' := s'.history;
            || h'.settled == h.settled
            || (step.AdvanceCursor? && h'.settled == h.settled + [Redial.Missing])
            || (step.AdvanceCursor? && h'.settled == h.settled + [Redial.Dropped(s.now, s'.now, step.dialOk)])
  {
  }

  /** The step that counted the i-th reply read the clock, and the entry bears that
      reading and the reply's number. */
  lemma {:induction false} ReceivedWhen(conf: Stream, start: Micros, steps: seq<Step>, i: nat) returns (n: nat)
    requires i < |Exec(conf, start, steps).history.received|
    ensures n < |steps| && steps[n].ClientReads?
    ensures |Exec(conf, start, steps[..n]).history.received| == i
    ensures Exec(conf, start, steps).history.received[i]
            == Event(steps[n].reply.number, Exec(conf, start, steps[..n]).now)
  {
    var k := |steps| - 1;
    var s := Exec(conf, start, steps[..k]);
    StepRecords(conf, s, steps[k]);
    if i < |s.history.received| {
      n := ReceivedWhen(conf, start, steps[..k], i);
      assert steps[..k][..n] == steps[..n];
    } else {
      n := k;
    }
  }

  /** The same for the i-th drop: the check that counted it was of that number. */
  lemma {:induction false} DroppedWhen(conf: Stream, start: Micros, steps: seq<Step>, i: nat) returns (n: nat)
    requires i < |Exec(conf, start, steps).history.dropped|
    ensures n < |steps| && steps[n].CheckCursor?
    ensures |Exec(conf, start, steps[..n]).history.dropped| == i
    ensures var s := Exec(conf, start, steps[..n]);
            Exec(conf, start, steps).history.dropped[i] == Event(s.client.cursor, s.now)
  {
    var k := |steps| - 1;
    var s := Exec(conf, start, steps[..k]);
    StepRecords(conf, s, steps[k]);
    if i < |s.history.dropped| {
      n := DroppedWhen(conf, start, steps[..k], i);
      assert steps[..k][..n] == steps[..n];
    } else {
      n := k;
    }
  }

  /** When number k was dropped, the redial code read the clock at the beginning and
      at the end of the step that moved the cursor past k. */
  lemma {:induction false} SettledWhen(conf: Stream, start: Micros, steps: seq<Step>, k: nat) returns (n: nat)
    requires 1 <= k < Exec(conf, start, steps).client.cursor
    requires k in Numbers(Exec(conf, start, steps).history.dropped)
    ensures n < |steps| && steps[n].AdvanceCursor?
    ensures Exec(conf, start, steps[..n]).client.cursor == k
    ensures Exec(conf, start, steps[..n + 1]).client.cursor == k + 1
    ensures |Exec(conf, start, steps).history.settled| >= k
    ensures Exec(conf, start, steps).history.settled[k - 1]
            == Redial.Dropped(Exec(conf, start, steps[..n]).now, Exec(conf, start, steps[..n + 1]).now,
                              steps[n].dialOk)
  {
    InvAlways(conf, start, steps);
    n := EntryWhen(conf, start, steps, k);
    assert Exec(conf, start, steps).history.settled[k - 1].Dropped?;
  }

  lemma OneEntryEach(conf: Stream, start: Micros, steps: seq<Step>)
    ensures var s := Exec(conf, start, steps); |s.history.settled| == s.client.cursor - 1
  {
    InvAlways(conf, start, steps);
  }

  lemma {:induction false} EntryWhen(conf: Stream, start: Micros, steps: seq<Step>, k: nat) returns (n: nat)
    requires 1 <= k <= |Exec(conf, start, steps).history.settled|
    ensures n < |steps| && steps[n].AdvanceCursor?
    ensures Exec(conf, start, steps[..n]).client.cursor == k
    ensures Exec(conf, start, steps[..n + 1]).client.cursor == k + 1
    ensures var e := Exec(conf, start, steps).history.settled[k - 1];
            e == Redial.Missing
            || e == Redial.Dropped(Exec(conf, start, steps[..n]).now, Exec(conf, start, steps[..n + 1]).now,
                                   steps[n].dialOk)
  {
    var last := |steps| - 1;
    var s := Exec(conf, start, steps[..last]);
    OneEntryEach(conf, start, steps[..last]);
    OneEntryEach(conf, start, steps);
    StepSettles(conf, s, steps[last]);
    if k <= |s.history.settled| {
      n := EntryWhen(conf, start, steps[..last], k);
      assert steps[..last][..n] == steps[..n] && steps[..last][..n + 1] == steps[..n + 1];
    } else {
      n := last;
      assert steps[..n + 1] == steps;
    }
  }

  /** The step that read the send time the sender holds. */
  lemma {:induction false} StampReadWhen(conf: Stream, start: Micros, steps: seq<Step>) returns (n: nat)
    requires Exec(conf, start, steps).sender.Stamped?
    ensures n < |steps| && steps[n].TakeStamp?
    ensures var s := Exec(conf, start, steps[..n]);
            && s.now == Exec(conf, start, steps).sender.stamp
            && s.sender.Numbered?
            && s.client.packetSequence == Exec(conf, start, steps).client.packetSequence
  {
    var k := |steps| - 1;
    if Exec(conf, start, steps[..k]).sender.Stamped? {
      n := StampReadWhen(conf, start, steps[..k]);
      assert steps[..k][..n] == steps[..n];
    } else {
      n := k;
    }
  }

  lemma StepStamps(conf: Stream, s: System, step: Step)
    ensures var h, h' := s.history, Next(conf, s, step).history;
            || h'.stamps == h.stamps
            || (s.sender.Stamped? && h'.stamps == h.stamps[s.client.packetSequence := s.sender.stamp])
  {
  }

  /** A number's send stamp is what the clock said when the sender, having taken that
      number and no other since, read it. */
  lemma {:induction false} StampedWhen(conf: Stream, start: Micros, steps: seq<Step>, k: int) returns (n: nat)
    requires k in Exec(conf, start, steps).history.stamps
    ensures n < |steps| && steps[n].TakeStamp?
    ensures var s := Exec(conf, start, steps[..n]);
            && s.sender.Numbered? && s.client.packetSequence == k
            && s.now == Exec(conf, start, steps).history.stamps[k]
  {
    var last := |steps| - 1;
    var s := Exec(conf, start, steps[..last]);
    StepStamps(conf, s, steps[last]);
    if k in s.history.stamps && Exec(conf, start, steps).history.stamps[k] == s.history.stamps[k] {
      n := StampedWhen(conf, start, steps[..last], k);
    } else {
      n := StampReadWhen(conf, start, steps[..last]);
    }
    assert steps[..last][..n] == steps[..n];
  }

  // ---------------------------------------------------------------------
  // Round trips by the clock

  /** A reply to a pending number, available to the reader, counts once: with the time
      by the clock since the number's send stamp. Any other reply changes nothing. */
  lemma ReplyCounts(conf: Stream, start: Micros, steps: seq<Step>, reply: Packet)
    ensures var s, s' := Exec(conf, start, steps), Exec(conf, start, steps + [ClientReads(reply)]);
            if reply in s.replies && reply.number in s.client.pending then
              && reply.number in s.history.stamps
              && s'.client.roundTrip == s.client.roundTrip + (s.now - s.history.stamps[reply.number])
              && s'.client.received == s.client.received + 1
              && s'.client.pending == s.client.pending - {reply.number}
              && s'.client.dropped == s.client.dropped && s'.client.cursor == s.client.cursor
              && s'.now == s.now
            else s' == s
  {
    InvAlways(conf, start, steps);
    Accounting.ExecExtends(conf, start, steps, ClientReads(reply));
    var s := Exec(conf, start, steps);
    if reply in s.replies && reply.number in s.client.pending {
      assert FateOf(s, reply.number);
      assert reply in s.wire;
    }
  }

  /** The time a step of the reader adds, by the clock and the map of pending numbers. */
  function Elapsed(s: System, step: Step): int {
    match step
    case ClientReads(reply) =>
      if reply in s.replies && reply.number in s.client.pending then s.now - s.client.pending[reply.number] else 0
    case _ => 0
  }

  /** The round-trip time of a run, by the clock. */
  function TotalElapsed(conf: Stream, start: Micros, steps: seq<Step>): int {
    if steps == [] then 0
    else
      var prefix := steps[..|steps| - 1];
      TotalElapsed(conf, start, prefix) + Elapsed(Exec(conf, start, prefix), steps[|steps| - 1])
  }

  lemma OnlyRepliesElapse(conf: Stream, s: System, step: Step)
    requires !step.ClientReads?
    ensures Next(conf, s, step).client.roundTrip == s.client.roundTrip
  {
  }

  /** In every run the round-trip total is the time by the clock from each counted
      number's stored stamp to the reading of its reply. */
  lemma {:induction false} RoundTripByTheClock(conf: Stream, start: Micros, steps: seq<Step>)
    ensures Exec(conf, start, steps).client.roundTrip == TotalElapsed(conf, start, steps)
  {
    if steps != [] {
      var prefix, step := steps[..|steps| - 1], steps[|steps| - 1];
      RoundTripByTheClock(conf, start, prefix);
      if step.ClientReads? {
        ReplyCounts(conf, start, prefix, step.reply);
        InvAlways(conf, start, prefix);
        assert steps == prefix + [step];
      } else {
        OnlyRepliesElapse(conf, Exec(conf, start, prefix), step);
      }
    }
  }

  // ---------------------------------------------------------------------
  // Steps outside the sender's loop

  /** Before the traffic begins the sender may put test packets on the wire, numbered
      -1; they take no number and leave nothing pending. */
  lemma TestPacketGoesOut(conf: Stream, start: Micros, steps: seq<Step>)
    requires Exec(conf, start, steps).sender.Preamble?
    ensures var s := Exec(conf, start, steps);
            Exec(conf, start, steps + [SendTestPacket]) == s.(wire := s.wire + {Packet(-1, s.now)})
  {
    Accounting.ExecExtends(conf, start, steps, SendTestPacket);
  }

  /** A server that is handed a packet on the wire logs it with the time, and its reply
      becomes available; a packet that is not on the wire cannot arrive. */
  lemma PacketArrives(conf: Stream, start: Micros, steps: seq<Step>, v: int, packet: Packet)
    ensures var s, s' := Exec(conf, start, steps), Exec(conf, start, steps + [ServerHandles(v, packet)]);
            if packet in s.wire then
              && ArrivalsAt(s'.history.arrivals, v)
                 == ArrivalsAt(s.history.arrivals, v) + [Sessions.Arrival(packet.number, s.now)]
              && (forall u :: u != v ==> ArrivalsAt(s'.history.arrivals, u) == ArrivalsAt(s.history.arrivals, u))
              && s'.replies == s.replies + {packet}
              && s'.client == s.client && s'.wire == s.wire && s'.now == s.now
            else s' == s
  {
    Accounting.ExecExtends(conf, start, steps, ServerHandles(v, packet));
  }
}
