/** What every run of the step system guarantees about the packet accounts. */
module Accounting {
  import opened Config
  import opened Client
  import opened Protocol
  import Redial
  import Sessions
  import Sets

  lemma {:induction false} DistinctSize(log: seq<Event>)
    requires Distinct(log)
    ensures |Numbers(log)| == |log|
  {
    if log != [] {
      var k := |log| - 1;
      DistinctSize(log[..k]);
      NumbersExtend(log[..k], log[k]);
      assert log == log[..k] + [log[k]];
      assert log[k].number !in Numbers(log[..k]);
    }
  }

  /** The pointwise invariant as a partition of 1..packetSequence. */
  lemma FatesPartition(s: System)
    requires OneFate(s)
    ensures var h := s.history;
            Sets.Partition(h.failed, Numbers(h.received), Numbers(h.dropped), s.client.pending.Keys, Hand(s),
                           Sets.Range(s.client.packetSequence))
  {
    var h := s.history;
    forall k
      ensures Sets.InOne(h.failed, Numbers(h.received), Numbers(h.dropped), s.client.pending.Keys, Hand(s), k)
              == if k in Sets.Range(s.client.packetSequence) then 1 else 0
    {
      assert FateOf(s, k);
    }
    Sets.PartitionFromCounts(h.failed, Numbers(h.received), Numbers(h.dropped), s.client.pending.Keys, Hand(s),
                             Sets.Range(s.client.packetSequence));
  }

  /** Between packets, what was written is exactly what is awaited or decided. */
  lemma WrittenSize(s: System)
    requires OneFate(s) && Unwritten(s) == {}
    ensures var h := s.history;
            |h.written| == |Numbers(h.received)| + |Numbers(h.dropped)| + |s.client.pending|
  {
    var h := s.history;
    forall k
      ensures Sets.InOne({}, Numbers(h.received), Numbers(h.dropped), s.client.pending.Keys, {}, k)
              == if k in h.written then 1 else 0
    {
      assert FateOf(s, k);
    }
    Sets.PartitionFromCounts({}, Numbers(h.received), Numbers(h.dropped), s.client.pending.Keys, {}, h.written);
    Sets.PartitionSize({}, Numbers(h.received), Numbers(h.dropped), s.client.pending.Keys, {}, h.written);
    assert |s.client.pending.Keys| == |s.client.pending|;
  }

  lemma TakenSize(s: System)
    requires OneFate(s) && Hand(s) == {}
    ensures var h := s.history;
            s.client.packetSequence
            == |h.failed| + |Numbers(h.received)| + |Numbers(h.dropped)| + |s.client.pending|
  {
    var h := s.history;
    FatesPartition(s);
    Sets.RangeSize(s.client.packetSequence);
    Sets.PartitionSize(h.failed, Numbers(h.received), Numbers(h.dropped), s.client.pending.Keys, {},
                       Sets.Range(s.client.packetSequence));
    assert |s.client.pending.Keys| == |s.client.pending|;
  }

  /** Conservation under every interleaving. Each number taken so far is exactly
      one of: send failed, received, dropped, pending, or in the sender's hand; and
      the counters are the sizes of those sets. */
  lemma Conservation(conf: Stream, start: Micros, steps: seq<Step>)
    ensures var s := Exec(conf, start, steps); var c, h := s.client, s.history;
            && Sets.Partition(h.failed, Numbers(h.received), Numbers(h.dropped), c.pending.Keys, Hand(s),
                              Sets.Range(c.packetSequence))
            && c.sendFailed == |h.failed|
            && c.received == |Numbers(h.received)|
            && c.dropped == |Numbers(h.dropped)|
  {
    InvAlways(conf, start, steps);
    var s := Exec(conf, start, steps);
    FatesPartition(s);
    DistinctSize(s.history.received);
    DistinctSize(s.history.dropped);
  }

  /** The exposed counters balance whenever the sender is between packets: numbers
      taken = sent + failed, and sent = received + dropped + pending. */
  lemma CountersBalance(conf: Stream, start: Micros, steps: seq<Step>)
    requires Exec(conf, start, steps).sender.Ready? || Exec(conf, start, steps).sender.Preamble?
    ensures var c := Exec(conf, start, steps).client;
            && c.packetSequence == c.sent + c.sendFailed
            && c.sent == c.received + c.dropped + |c.pending|
  {
    InvAlways(conf, start, steps);
    var s := Exec(conf, start, steps);
    DistinctSize(s.history.received);
    DistinctSize(s.history.dropped);
    TakenSize(s);
    WrittenSize(s);
  }

  /** One state is a later one of the same run: outcomes and the cursor only grow. */
  predicate Later(s: System, s': System) {
    && s.history.received <= s'.history.received
    && s.history.dropped <= s'.history.dropped
    && s.history.failed <= s'.history.failed
    && s.client.cursor <= s'.client.cursor
    && s.client.packetSequence <= s'.client.packetSequence
    && s.now <= s'.now
  }

  lemma NextIsLater(conf: Stream, s: System, step: Step)
    ensures Later(s, Next(conf, s, step))
  {
  }

  /** Outcomes are final: what was counted as received, dropped or failed stays so,
      and the cursor never moves back. */
  lemma {:induction false} OutcomesAreFinal(conf: Stream, start: Micros, steps: seq<Step>, more: seq<Step>)
    ensures Later(Exec(conf, start, steps), Exec(conf, start, steps + more))
  {
    if more == [] {
      assert steps + more == steps;
    } else {
      var k := |more| - 1;
      var all := steps + more;
      assert all[..|all| - 1] == steps + more[..k];
      OutcomesAreFinal(conf, start, steps, more[..k]);
      NextIsLater(conf, Exec(conf, start, all[..|all| - 1]), all[|all| - 1]);
    }
  }

  /** Numbers keep their send stamps. */
  predicate StampsKept(before: map<int, int>, after: map<int, int>) {
    forall k :: k in before ==> k in after && after[k] == before[k]
  }

  lemma NextKeepsStamps(conf: Stream, s: System, step: Step)
    requires s.sender.Stamped? ==> s.client.packetSequence !in s.history.stamps
    ensures StampsKept(s.history.stamps, Next(conf, s, step).history.stamps)
  {
  }

  lemma {:induction false} StampsAreFinal(conf: Stream, start: Micros, steps: seq<Step>, more: seq<Step>)
    ensures StampsKept(Exec(conf, start, steps).history.stamps, Exec(conf, start, steps + more).history.stamps)
  {
    if more == [] {
      assert steps + more == steps;
    } else {
      var k := |more| - 1;
      var all := steps + more;
      assert all[..|all| - 1] == steps + more[..k];
      StampsAreFinal(conf, start, steps, more[..k]);
      InvAlways(conf, start, all[..|all| - 1]);
      NextKeepsStamps(conf, Exec(conf, start, all[..|all| - 1]), all[|all| - 1]);
    }
  }

  /** The timeout handler's cursor never passes a number that is still pending, and
      never reaches the newest number: that one is never counted as dropped. So a
      number skipped is never inserted later, and when a write fails the number
      is still pending when the sender comes to remove it. */
  lemma CursorTheorem(conf: Stream, start: Micros, steps: seq<Step>)
    ensures var s := Exec(conf, start, steps); var c := s.client;
            && (forall k :: k in c.pending ==> c.cursor <= k <= c.packetSequence)
            && (forall k :: k in Numbers(s.history.dropped) ==> k < c.packetSequence)
            && (s.sender.WriteFailed? ==> c.packetSequence in c.pending)
            && (s.sender.Withdrawn? ==>
                  c.packetSequence !in Numbers(s.history.dropped) + Numbers(s.history.received))
  {
    InvAlways(conf, start, steps);
    var s := Exec(conf, start, steps);
    assert FateOf(s, s.client.packetSequence);
    forall k | k in Numbers(s.history.dropped)
      ensures k < s.client.packetSequence
    {
      assert FateOf(s, k);
    }
  }

  /** Under duplicate and late replies each number is counted at most once, test
      replies never; the round-trip total is the sum over counted replies of the
      time since the number's send stamp, and no term is negative. */
  lemma RoundTripIntegrity(conf: Stream, start: Micros, steps: seq<Step>)
    ensures var s := Exec(conf, start, steps); var h := s.history;
            && Distinct(h.received)
            && (forall e :: e in h.received ==>
                  && e.number >= 1 && e.number in h.written
                  && e.number in h.stamps && h.stamps[e.number] <= e.at)
            && s.client.roundTrip == SumElapsed(h.received, h.stamps)
            && (forall k :: k in s.client.pending ==> k in h.stamps && h.stamps[k] == s.client.pending[k])
  {
    InvAlways(conf, start, steps);
    var s := Exec(conf, start, steps);
    forall e | e in s.history.received
      ensures e.number >= 1 && e.number in s.history.written
    {
      assert e.number in Numbers(s.history.received);
      assert FateOf(s, e.number);
    }
  }

  /** The total only grows, so it may be fed to a counter that rejects negative
      increments. */
  lemma RoundTripNeverShrinks(conf: Stream, start: Micros, steps: seq<Step>, step: Step)
    ensures Exec(conf, start, steps).client.roundTrip <= Exec(conf, start, steps + [step]).client.roundTrip
  {
    InvAlways(conf, start, steps);
    assert (steps + [step])[..|steps|] == steps;
    var s := Exec(conf, start, steps);
    if step.ClientReads? && step.reply in s.replies && Accepts(s.client, step.reply) {
      assert FateOf(s, step.reply.number);
      assert step.reply in s.wire;
    }
  }

  /** A sweep of the timeout handler ends in one of two ways: its guard fails, or
      it finds a packet that is not overdue. */
  predicate SweepEnds(conf: Stream, s: System) {
    || (s.scanner.AtGuard? && !(s.client.cursor < s.client.packetSequence))
    || (s.scanner.Admitted? && Check(s.client, s.now, conf.TimeoutMicros()) == Young)
  }

  /** Whenever a sweep ends, and whatever ran meanwhile, no number below the newest
      is still pending and overdue; the early exit misses nothing. */
  lemma SweepLeavesNothingOverdue(conf: Stream, start: Micros, steps: seq<Step>)
    ensures var s := Exec(conf, start, steps); var c := s.client;
            SweepEnds(conf, s) ==>
              forall k :: k in c.pending && k < c.packetSequence ==>
                s.now - c.pending[k] <= conf.packetTimeout * 1_000_000
  {
    InvAlways(conf, start, steps);
  }

  /** A number that was below the newest when a sweep ended, and is counted as
      received only later, was pending when the sweep ended. */
  lemma ReceivedLaterWasPending(conf: Stream, start: Micros, steps: seq<Step>, more: seq<Step>, i: nat)
    requires var s, s' := Exec(conf, start, steps), Exec(conf, start, steps + more);
             && |s.history.received| <= i < |s'.history.received|
             && s'.history.received[i].number < s.client.packetSequence
    ensures Exec(conf, start, steps + more).history.received[i].number in Exec(conf, start, steps).client.pending
  {
    InvAlways(conf, start, steps);
    InvAlways(conf, start, steps + more);
    OutcomesAreFinal(conf, start, steps, more);
    var s, s' := Exec(conf, start, steps), Exec(conf, start, steps + more);
    var e := s'.history.received[i];
    assert e in s'.history.received;
    assert e.number in Numbers(s'.history.received);
    assert FateOf(s, e.number) && FateOf(s', e.number);
    StaysIn(s.history.failed, s'.history.failed, s.history.dropped, s'.history.dropped, e.number);
  }

  lemma StaysIn(failed: set<int>, failed': set<int>, dropped: seq<Event>, dropped': seq<Event>, k: int)
    requires failed <= failed' && dropped <= dropped'
    ensures k in failed ==> k in failed'
    ensures k in Numbers(dropped) ==> k in Numbers(dropped')
  {
    if k in Numbers(dropped) {
      var e :| e in dropped && e.number == k;
      assert e in dropped';
    }
  }

  /** A bound on round-trip times. When a sweep ended at time T, a reply to a number
      then below the newest that is counted later has taken at most the timeout and
      the time since T. */
  lemma RoundTripBound(conf: Stream, start: Micros, steps: seq<Step>, more: seq<Step>, i: nat)
    requires SweepEnds(conf, Exec(conf, start, steps))
    requires var s, s' := Exec(conf, start, steps), Exec(conf, start, steps + more);
             && |s.history.received| <= i < |s'.history.received|
             && s'.history.received[i].number < s.client.packetSequence
    ensures var s, h := Exec(conf, start, steps), Exec(conf, start, steps + more).history;
            var e := h.received[i];
            && e.number in h.stamps
            && e.at - h.stamps[e.number] <= conf.packetTimeout * 1_000_000 + (e.at - s.now)
  {
    InvAlways(conf, start, steps);
    StampsAreFinal(conf, start, steps, more);
    SweepLeavesNothingOverdue(conf, start, steps);
    ReceivedLaterWasPending(conf, start, steps, more, i);
  }

  /** When a number is counted as dropped, its send stamp is older than the timeout. */
  lemma DroppedMeansTimedOut(conf: Stream, start: Micros, steps: seq<Step>)
    ensures var h := Exec(conf, start, steps).history;
            forall e :: e in h.dropped ==>
              e.number in h.stamps && e.at - h.stamps[e.number] > conf.packetTimeout * 1_000_000
  {
    InvAlways(conf, start, steps);
  }

  /** The send stamp of number k is older than the timeout. */
  predicate TimedOut(conf: Stream, s: System, k: int) {
    k in s.history.stamps && s.now - s.history.stamps[k] > conf.packetTimeout * 1_000_000
  }

  /** Exactly which numbers count as dropped when a sweep ends: those that went out,
      were not received, are older than the timeout, and are not the newest. So of
      the timed-out numbers, dropped are those below the newest and no others. */
  lemma DroppedIff(conf: Stream, start: Micros, steps: seq<Step>, k: int)
    requires SweepEnds(conf, Exec(conf, start, steps))
    ensures var s := Exec(conf, start, steps); var h := s.history;
            k in Numbers(h.dropped) <==>
              && k in h.written && k !in Numbers(h.received) && TimedOut(conf, s, k)
              && k < s.client.packetSequence
  {
    InvAlways(conf, start, steps);
    SweepLeavesNothingOverdue(conf, start, steps);
    CursorTheorem(conf, start, steps);
    assert FateOf(Exec(conf, start, steps), k);
  }

  lemma ExecExtends(conf: Stream, start: Micros, steps: seq<Step>, step: Step)
    ensures Exec(conf, start, steps + [step]) == Next(conf, Exec(conf, start, steps), step)
  {
    assert (steps + [step])[..|steps|] == steps;
  }

  /** The newest number is out and pending, and the sender rests. */
  predicate NewestPends(s: System) {
    s.sender.Ready? && s.client.packetSequence in s.client.pending
  }

  /** The step takes no number and brings no reply to number n. */
  predicate LeavesNewest(step: Step, n: int) {
    !step.TakeNumber? && !(step.ClientReads? && step.reply.number == n)
  }

  lemma NewestStep(conf: Stream, s: System, step: Step)
    requires CursorBounds(s) && NewestPends(s) && LeavesNewest(step, s.client.packetSequence)
    ensures NewestPends(Next(conf, s, step))
    ensures Next(conf, s, step).client.packetSequence == s.client.packetSequence
  {
  }

  /** The converse of DroppedMeansTimedOut fails for the newest number. As long as the sender takes no
      further number and no reply to it comes, it stays pending, however much time
      passes and however often the timeout handler sweeps. */
  lemma {:induction false} NewestStaysPending(conf: Stream, start: Micros, steps: seq<Step>, more: seq<Step>)
    requires NewestPends(Exec(conf, start, steps))
    requires forall i :: 0 <= i < |more| ==> LeavesNewest(more[i], Exec(conf, start, steps).client.packetSequence)
    ensures NewestPends(Exec(conf, start, steps + more))
    ensures Exec(conf, start, steps + more).client.packetSequence == Exec(conf, start, steps).client.packetSequence
  {
    if more == [] {
      assert steps + more == steps;
    } else {
      var k := |more| - 1;
      NewestStaysPending(conf, start, steps, more[..k]);
      assert steps + more == steps + more[..k] + [more[k]];
      ExecExtends(conf, start, steps + more[..k], more[k]);
      InvAlways(conf, start, steps + more[..k]);
      NewestStep(conf, Exec(conf, start, steps + more[..k]), more[k]);
    }
  }

  /** The sender's five steps for a packet that goes out, from state s. */
  lemma SendSteps(conf: Stream, s: System)
    requires s.sender.Ready?
    ensures var n := s.client.packetSequence + 1;
            var queued := Next(conf, Next(conf, Next(conf, s, TakeNumber), TakeStamp), EnqueueNumber);
            var s' := Next(conf, Next(conf, queued, WriteSucceeds), CountSuccess);
            && s'.client == s.client.(packetSequence := n, sent := s.client.sent + 1,
                                      pending := s.client.pending[n := s.now])
            && s' == s.(client := s'.client, wire := s.wire + {Packet(n, s.now)}, history := s'.history)
            && s'.history.arrivals == s.history.arrivals
  {
  }

  /** One more packet goes out. */
  lemma Sent(conf: Stream, start: Micros, steps: seq<Step>) returns (longer: seq<Step>)
    requires Exec(conf, start, steps).sender.Ready?
    ensures var s, s' := Exec(conf, start, steps), Exec(conf, start, longer);
            var n := s.client.packetSequence + 1;
            && s'.client == s.client.(packetSequence := n, sent := s.client.sent + 1,
                                      pending := s.client.pending[n := s.now])
            && s' == s.(client := s'.client, wire := s.wire + {Packet(n, s.now)}, history := s'.history)
            && s'.history.arrivals == s.history.arrivals
  {
    SendSteps(conf, Exec(conf, start, steps));
    longer := steps;
    ExecExtends(conf, start, longer, TakeNumber);
    longer := longer + [TakeNumber];
    ExecExtends(conf, start, longer, TakeStamp);
    longer := longer + [TakeStamp];
    ExecExtends(conf, start, longer, EnqueueNumber);
    longer := longer + [EnqueueNumber];
    ExecExtends(conf, start, longer, WriteSucceeds);
    longer := longer + [WriteSucceeds];
    ExecExtends(conf, start, longer, CountSuccess);
    longer := longer + [CountSuccess];
  }

  /** Such a run exists: one packet is sent, no reply comes, and time passes. */
  lemma NewestCanBeOverdue(conf: Stream, start: Micros) returns (steps: seq<Step>)
    ensures var s := Exec(conf, start, steps); NewestPends(s) && TimedOut(conf, s, s.client.packetSequence)
  {
    ExecExtends(conf, start, [], BeginTraffic);
    steps := Sent(conf, start, [] + [BeginTraffic]);
    InvAlways(conf, start, steps);
    var later := Tick(start + conf.packetTimeout * 1_000_000 + 1);
    ExecExtends(conf, start, steps, later);
    steps := steps + [later];
  }

  /** The redial controller counts consecutive dropped sequence numbers. It counts
      exactly while its last redial was a successful dial; its counter is the
      longest run of dropped numbers since then just below the cursor, and for a
      domain name stays within packetTimeout * sendRate. */
  lemma RedialCountsDroppedNumbers(conf: Stream, start: Micros, steps: seq<Step>)
    ensures var s := Exec(conf, start, steps); var n, log := s.redial.timedoutPktCount, s.history.settled;
            && s.redial == Redial.Run(conf, log)
            && (s.redial.startTimeout == Redial.COUNTING <==> exists i: nat :: Redial.DialledAt(conf, log, i))
            && (n > 0 ==> exists i: nat :: Redial.DialledAt(conf, log, i))
            && (conf.isDomainName ==> n <= conf.packetTimeout * conf.sendRate)
            && (forall k :: s.client.cursor - n <= k < s.client.cursor ==> k in Numbers(s.history.dropped))
            && (s.redial.startTimeout == Redial.COUNTING ==>
                  forall m: nat :: Redial.DropRun(conf, log, m) <==> m <= n)
  {
    InvAlways(conf, start, steps);
    var s := Exec(conf, start, steps);
    var n := s.redial.timedoutPktCount;
    Redial.CounterIsDropRun(conf, s.history.settled);
    Redial.CountingIffDialled(conf, s.history.settled);
    if n > 0 {
      assert Redial.DropRun(conf, s.history.settled, n);
      forall k | s.client.cursor - n <= k < s.client.cursor
        ensures k in Numbers(s.history.dropped)
      {
        assert s.history.settled[k - 1].Dropped?;
      }
    }
  }

  lemma ScannedAlways(conf: Stream, start: Micros, steps: seq<Step>)
    ensures Scanned(conf, Exec(conf, start, steps))
  {
    InvAlways(conf, start, steps);
  }

  /** Settling number k made the timeout handler redial. */
  predicate RedialledAt(conf: Stream, h: History, k: int) {
    1 <= k <= |h.settled| && Redial.AttemptedAt(conf, h.settled, k - 1)
  }

  lemma NoRedialBetween(conf: Stream, h: History, i: int, j: int)
    requires 0 < i < j <= |h.settled|
    requires forall m :: i < m < j ==> !RedialledAt(conf, h, m)
    ensures forall m :: i - 1 < m < j - 1 ==> !Redial.AttemptedAt(conf, h.settled, m)
  {
    forall m | i - 1 < m < j - 1
      ensures !Redial.AttemptedAt(conf, h.settled, m)
    {
      assert !RedialledAt(conf, h, m + 1);
    }
  }

  /** In every run, after a successful dial at number i the next redial comes at
      number j exactly when the destination is a domain name and
      packetTimeout * sendRate + 1 numbers in a row, all above i and the last of
      them j, were dropped. */
  lemma RedialAfterDial(conf: Stream, start: Micros, steps: seq<Step>, i: int, j: int)
    requires var s := Exec(conf, start, steps);
             && i < j < s.client.cursor
             && RedialledAt(conf, s.history, i) && s.history.settled[i - 1].dialOk
             && forall m :: i < m < j ==> !RedialledAt(conf, s.history, m)
    ensures var h, n := Exec(conf, start, steps).history, conf.packetTimeout * conf.sendRate;
            RedialledAt(conf, h, j) <==>
              conf.isDomainName && i < j - n && forall k :: j - n <= k <= j ==> k in Numbers(h.dropped)
  {
    ScannedAlways(conf, start, steps);
    RedialAfterDialAt(conf, Exec(conf, start, steps), i, j, conf.packetTimeout * conf.sendRate);
  }

  lemma RedialAfterDialAt(conf: Stream, s: System, i: int, j: int, n: nat)
    requires Scanned(conf, s) && n == conf.packetTimeout * conf.sendRate
    requires i < j < s.client.cursor
    requires RedialledAt(conf, s.history, i) && s.history.settled[i - 1].dialOk
    requires forall m :: i < m < j ==> !RedialledAt(conf, s.history, m)
    ensures RedialledAt(conf, s.history, j) <==>
              conf.isDomainName && i < j - n && forall k :: j - n <= k <= j ==> k in Numbers(s.history.dropped)
  {
    NoRedialBetween(conf, s.history, i, j);
    Redial.NextAttemptAfterDial(conf, s.history.settled, i - 1, j - 1);
    if 0 < j - n {
      SettledAsDropped(conf, s, j - n, j);
    }
  }

  /** The redial controller was told of drops from lo to hi exactly when these
      numbers were dropped. */
  lemma SettledAsDropped(conf: Stream, s: System, lo: int, hi: int)
    requires Scanned(conf, s) && 1 <= lo && hi < s.client.cursor
    ensures (forall m :: lo - 1 <= m <= hi - 1 ==> s.history.settled[m].Dropped?)
            <==> forall k :: lo <= k <= hi ==> k in Numbers(s.history.dropped)
  {
    if forall m :: lo - 1 <= m <= hi - 1 ==> s.history.settled[m].Dropped? {
      forall k | lo <= k <= hi
        ensures k in Numbers(s.history.dropped)
      {
        assert s.history.settled[k - 1].Dropped?;
      }
    }
    if forall k :: lo <= k <= hi ==> k in Numbers(s.history.dropped) {
      forall m | lo - 1 <= m <= hi - 1
        ensures s.history.settled[m].Dropped?
      {
        assert m + 1 in Numbers(s.history.dropped);
      }
    }
  }

  lemma SettledStep(conf: Stream, s: System, step: Step)
    requires Redial.ClockOrdered(s.history.settled) && Redial.ReadBy(s.history.settled, s.now)
    ensures var s' := Next(conf, s, step);
            Redial.ClockOrdered(s'.history.settled) && Redial.ReadBy(s'.history.settled, s'.now)
  {
    if step.AdvanceCursor? {
      Redial.ClockOrderedExtends(s.history.settled, Redial.Missing, s.now);
      if step.t >= s.now {
        Redial.ClockOrderedExtends(s.history.settled, Redial.Dropped(s.now, step.t, step.dialOk), s.now);
      }
    } else {
      OthersDoNotSettle(conf, s, step);
    }
  }

  lemma OthersDoNotSettle(conf: Stream, s: System, step: Step)
    requires !step.AdvanceCursor?
    ensures Next(conf, s, step).history.settled == s.history.settled && Next(conf, s, step).now >= s.now
  {
  }

  /** In every run the redial controller's readings are in order. */
  lemma {:induction false} SettledInOrder(conf: Stream, start: Micros, steps: seq<Step>)
    ensures var s := Exec(conf, start, steps);
            Redial.ClockOrdered(s.history.settled) && Redial.ReadBy(s.history.settled, s.now)
  {
    if steps != [] {
      SettledInOrder(conf, start, steps[..|steps| - 1]);
      SettledStep(conf, Exec(conf, start, steps[..|steps| - 1]), steps[|steps| - 1]);
    }
  }

  /** In every run, from its start (i = 0) and after a failed dial at number i, with f
      the first dropped number above i, a redial comes at number j exactly when the
      destination is a domain name, j was dropped, and the second reading taken there
      is more than redialTimeout seconds after the first reading taken at f. */
  lemma RedialAfterFailure(conf: Stream, start: Micros, steps: seq<Step>, i: nat, f: nat, j: nat)
    requires var s := Exec(conf, start, steps); var h := s.history;
             && i < f <= j < s.client.cursor
             && (i == 0 || (RedialledAt(conf, h, i) && !h.settled[i - 1].dialOk))
             && f in Numbers(h.dropped) && (forall m :: i < m < f ==> m !in Numbers(h.dropped))
             && forall m :: i < m < j ==> !RedialledAt(conf, h, m)
    ensures var h := Exec(conf, start, steps).history;
            && |h.settled| >= j && h.settled[f - 1].Dropped?
            && (h.settled[j - 1].Dropped? <==> j in Numbers(h.dropped))
            && (RedialledAt(conf, h, j) <==>
                  && conf.isDomainName && j in Numbers(h.dropped)
                  && h.settled[j - 1].second - h.settled[f - 1].first > conf.redialTimeout * 1_000_000)
  {
    ScannedAlways(conf, start, steps);
    RedialAfterFailureAt(conf, Exec(conf, start, steps), i, f, j);
  }

  lemma RedialAfterFailureAt(conf: Stream, s: System, i: nat, f: nat, j: nat)
    requires Scanned(conf, s) && i < f <= j < s.client.cursor
    requires i == 0 || (RedialledAt(conf, s.history, i) && !s.history.settled[i - 1].dialOk)
    requires f in Numbers(s.history.dropped) && forall m :: i < m < f ==> m !in Numbers(s.history.dropped)
    requires forall m :: i < m < j ==> !RedialledAt(conf, s.history, m)
    ensures var log := s.history.settled;
            && log[f - 1].Dropped?
            && (log[j - 1].Dropped? <==> j in Numbers(s.history.dropped))
            && (RedialledAt(conf, s.history, j) <==>
                  && conf.isDomainName && log[j - 1].Dropped?
                  && log[j - 1].second - log[f - 1].first > conf.redialTimeout * 1_000_000)
  {
    var h := s.history;
    forall m | i <= m < j - 1
      ensures !Redial.AttemptedAt(conf, h.settled, m)
    {
      assert !RedialledAt(conf, h, m + 1);
    }
    forall m | i <= m < f - 1
      ensures h.settled[m].Missing?
    {
      assert m + 1 !in Numbers(h.dropped);
    }
    Redial.NextAttemptAfterFailure(conf, h.settled, i, f - 1, j - 1);
  }

  /** In every run, after a failed dial at number i the next redial, at number j,
      is more than redialTimeout later. */
  lemma RedialBacksOff(conf: Stream, start: Micros, steps: seq<Step>, i: int, j: int)
    requires var h := Exec(conf, start, steps).history;
             && i < j && RedialledAt(conf, h, i) && !h.settled[i - 1].dialOk
             && RedialledAt(conf, h, j)
             && forall m :: i < m < j ==> !RedialledAt(conf, h, m)
    ensures var log := Exec(conf, start, steps).history.settled;
            log[j - 1].second - log[i - 1].second > conf.redialTimeout * 1_000_000
  {
    var h := Exec(conf, start, steps).history;
    SettledInOrder(conf, start, steps);
    NoRedialBetween(conf, h, i, j);
    Redial.FailedDialBacksOff(conf, h.settled, i - 1, j - 1);
  }

  /** The numbers server v was handed. */
  function ArrivedAt(h: History, v: int): set<int> {
    Sessions.Numbers(ArrivalsAt(h.arrivals, v))
  }

  /** The numbers below the highest that server v saw which it did not see. */
  function GapsAt(s: System, v: int): set<int> {
    Sets.Range(TableOf(s.servers, v).MaxSeq(CLIENT_IP)) - ArrivedAt(s.history, v)
  }

  lemma ArrivedAtIsArrived(h: History, v: int)
    ensures ArrivedAt(h, v) <= Arrived(h.arrivals)
  {
    forall k | k in ArrivedAt(h, v)
      ensures k in Arrived(h.arrivals)
    {
      var x :| x in ArrivalsAt(h.arrivals, v) && x.number == k;
      assert v in h.arrivals && x in h.arrivals[v];
    }
  }

  /** Each gap at server v has one of four fates. */
  lemma GapsPartition(conf: Stream, s: System, v: int)
    requires Inv(conf, s)
    ensures var h, gaps := s.history, GapsAt(s, v);
            Sets.Partition(gaps * h.failed, gaps * Numbers(h.dropped), gaps * s.client.pending.Keys,
                           gaps * Numbers(h.received), {}, gaps)
  {
    var h, gaps, m := s.history, GapsAt(s, v), TableOf(s.servers, v).MaxSeq(CLIENT_IP);
    assert TableOf(s.servers, v) == Sessions.Replay(CLIENT_IP, ArrivalsAt(h.arrivals, v));
    Sessions.ReplayShape(CLIENT_IP, ArrivalsAt(h.arrivals, v));
    ArrivedAtIsArrived(h, v);
    assert FateOf(s, m);
    forall k
      ensures Sets.InOne(gaps * h.failed, gaps * Numbers(h.dropped), gaps * s.client.pending.Keys,
                         gaps * Numbers(h.received), {}, k)
              == if k in gaps then 1 else 0
    {
      assert FateOf(s, k);
    }
    Sets.PartitionFromCounts(gaps * h.failed, gaps * Numbers(h.dropped), gaps * s.client.pending.Keys,
                             gaps * Numbers(h.received), {}, gaps);
  }

  /** End to end, under any loss, duplication and reordering, and with any server
      handling any packet: what one server misses, with its surplus arrivals added,
      is exactly the gaps it has in what the client failed to send, dropped, still
      awaits, and received. */
  lemma EndToEndExact(conf: Stream, start: Micros, steps: seq<Step>, v: int)
    ensures var s := Exec(conf, start, steps); var h, t, gaps := s.history, TableOf(s.servers, v), GapsAt(s, v);
            t.missing - t.late + Sessions.Surplus(ArrivalsAt(h.arrivals, v))
            == |gaps * h.failed| + |gaps * Numbers(h.dropped)| + |gaps * s.client.pending.Keys|
               + |gaps * Numbers(h.received)|
  {
    InvAlways(conf, start, steps);
    var s := Exec(conf, start, steps);
    var h, gaps := s.history, GapsAt(s, v);
    assert TableOf(s.servers, v) == Sessions.Replay(CLIENT_IP, ArrivalsAt(h.arrivals, v));
    Sessions.GapTheorem(CLIENT_IP, ArrivalsAt(h.arrivals, v));
    GapsPartition(conf, s, v);
    Sets.PartitionSize(gaps * h.failed, gaps * Numbers(h.dropped), gaps * s.client.pending.Keys,
                       gaps * Numbers(h.received), {}, gaps);
  }

  /** So what one server misses is covered by what the client dropped, failed to send
      or still awaits, and what other servers answered. */
  lemma EndToEnd(conf: Stream, start: Micros, steps: seq<Step>, v: int)
    ensures var s := Exec(conf, start, steps);
            var t, elsewhere := TableOf(s.servers, v), Numbers(s.history.received) - ArrivedAt(s.history, v);
            && t.missing - t.late
               <= s.client.dropped + s.client.sendFailed + |s.client.pending| + |elsewhere|
            && elsewhere <= Arrived(s.history.arrivals)
  {
    InvAlways(conf, start, steps);
    var s := Exec(conf, start, steps);
    var h, gaps := s.history, GapsAt(s, v);
    EndToEndExact(conf, start, steps, v);
    Sessions.SurplusNonNegative(ArrivalsAt(h.arrivals, v));
    DistinctSize(h.dropped);
    Sets.SubsetSize(gaps * h.failed, h.failed);
    Sets.SubsetSize(gaps * Numbers(h.dropped), Numbers(h.dropped));
    Sets.SubsetSize(gaps * s.client.pending.Keys, s.client.pending.Keys);
    Sets.SubsetSize(gaps * Numbers(h.received), Numbers(h.received) - ArrivedAt(h, v));
    assert |s.client.pending.Keys| == |s.client.pending|;
  }

  /** The client's own losses cover what server v misses. */
  predicate ClientCovers(s: System, v: int) {
    var t := TableOf(s.servers, v);
    t.missing - t.late <= s.client.dropped + s.client.sendFailed + |s.client.pending|
  }

  /** With one server throughout, its misses are covered by the client alone. */
  lemma EndToEndOneServer(conf: Stream, start: Micros, steps: seq<Step>, v: int)
    requires Exec(conf, start, steps).history.arrivals.Keys <= {v}
    ensures ClientCovers(Exec(conf, start, steps), v)
  {
    EndToEnd(conf, start, steps, v);
    var h := Exec(conf, start, steps).history;
    forall k | k in Arrived(h.arrivals)
      ensures k in ArrivedAt(h, v)
    {
      var u, x :| u in h.arrivals && x in h.arrivals[u] && x.number == k;
      assert u in h.arrivals.Keys;
    }
    assert Numbers(h.received) - ArrivedAt(h, v) == {};
  }

  /** From s to s', one more packet was handled by server v and answered. */
  predicate OneAnswered(s: System, s': System, v: int) {
    var n := s.client.packetSequence + 1;
    && s'.sender.Ready? && s'.now == s.now
    && s'.client.packetSequence == n && s'.client.pending == s.client.pending
    && s'.client.dropped == s.client.dropped && s'.client.sendFailed == s.client.sendFailed
    && s'.servers == s.servers[v := TableOf(s.servers, v).Handle(CLIENT_IP, n, s.now)]
    && s'.history.arrivals.Keys == s.history.arrivals.Keys + {v}
  }

  /** Server v handles the packet sent last, and the client reads the reply. */
  lemma AnswerSteps(conf: Stream, s: System, v: int, p: Packet)
    requires p in s.wire && p.number in s.client.pending && p.number >= 1
    ensures var s' := Next(conf, Next(conf, s, ServerHandles(v, p)), ClientReads(p));
            && s'.sender == s.sender && s'.now == s.now
            && s'.client.packetSequence == s.client.packetSequence
            && s'.client.pending == s.client.pending - {p.number}
            && s'.client.dropped == s.client.dropped && s'.client.sendFailed == s.client.sendFailed
            && s'.servers == s.servers[v := TableOf(s.servers, v).Handle(CLIENT_IP, p.number, s.now)]
            && s'.history.arrivals.Keys == s.history.arrivals.Keys + {v}
  {
  }

  lemma SentAndAnswered(conf: Stream, start: Micros, steps: seq<Step>, v: int) returns (longer: seq<Step>)
    requires Exec(conf, start, steps).sender.Ready?
    requires Exec(conf, start, steps).client.packetSequence + 1 !in Exec(conf, start, steps).client.pending
    ensures OneAnswered(Exec(conf, start, steps), Exec(conf, start, longer), v)
  {
    var s := Exec(conf, start, steps);
    var p := Packet(s.client.packetSequence + 1, s.now);
    var sent := Sent(conf, start, steps);
    AnswerSteps(conf, Exec(conf, start, sent), v, p);
    ExecExtends(conf, start, sent, ServerHandles(v, p));
    var handled := sent + [ServerHandles(v, p)];
    ExecExtends(conf, start, handled, ClientReads(p));
    longer := handled + [ClientReads(p)];
    assert s.client.pending[p.number := s.now] - {p.number} == s.client.pending;
  }

  /** Of two packets, server v is handed the second, and misses the first. */
  lemma SecondMisses(u: int, v: int, now: int)
    requires u != v
    ensures var one := map[u := Sessions.EMPTY.Handle(CLIENT_IP, 1, now)];
            var t := TableOf(one[v := TableOf(one, v).Handle(CLIENT_IP, 2, now)], v);
            t.missing - t.late == 1
  {
  }

  /** Two packets, handled by one server each and answered. */
  lemma TwoAnswered(conf: Stream, start: Micros, u: int, v: int) returns (steps: seq<Step>)
    ensures var s := Exec(conf, start, steps);
            var one := map[u := Sessions.EMPTY.Handle(CLIENT_IP, 1, start)];
            && s.client.dropped == s.client.sendFailed == 0 && s.client.pending == map[]
            && s.servers == one[v := TableOf(one, v).Handle(CLIENT_IP, 2, start)]
            && s.history.arrivals.Keys == {u, v}
  {
    var begun := [] + [BeginTraffic];
    ExecExtends(conf, start, [], BeginTraffic);
    var one := SentAndAnswered(conf, start, begun, u);
    assert Exec(conf, start, one).servers == map[u := Sessions.EMPTY.Handle(CLIENT_IP, 1, start)];
    steps := SentAndAnswered(conf, start, one, v);
  }

  /** With any two servers they need not be: one misses what only the other was
      handed, although the client has received everything it sent. */
  lemma EndToEndNeedsOneServer(conf: Stream, start: Micros, u: int, v: int) returns (steps: seq<Step>)
    requires u != v
    ensures var s := Exec(conf, start, steps); s.history.arrivals.Keys == {u, v} && !ClientCovers(s, v)
  {
    steps := TwoAnswered(conf, start, u, v);
    SecondMisses(u, v, start);
  }

  /** Exactly when the client's own losses are sure to cover what server v misses: when
      no other server can be handed a packet. */
  lemma EndToEndIff(conf: Stream, start: Micros, allowed: set<int>, v: int)
    requires v in allowed
    ensures (forall steps :: Exec(conf, start, steps).history.arrivals.Keys <= allowed ==>
                               ClientCovers(Exec(conf, start, steps), v))
            <==> allowed == {v}
  {
    if u :| u in allowed && u != v {
      var steps := EndToEndNeedsOneServer(conf, start, u, v);
      assert Exec(conf, start, steps).history.arrivals.Keys <= allowed;
    } else {
      forall u
        ensures u in allowed <==> u in {v}
      {
      }
      assert allowed == {v};
      forall steps | Exec(conf, start, steps).history.arrivals.Keys <= allowed
        ensures ClientCovers(Exec(conf, start, steps), v)
      {
        EndToEndOneServer(conf, start, steps, v);
      }
    }
  }
}
