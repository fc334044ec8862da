/** How many packets can be pending: the sender's pacing and the timeout handler's
    sweeps together bound the map of pending requests. */
module Backlog {
  import opened Config
  import opened Client
  import opened Protocol
  import Accounting
  import opened Paced
  import Pacing
  import Sets

  /** Bursts are at most `gap` microseconds of active time apart. */
  predicate Frequent(bursts: seq<Burst>, gap: nat) {
    forall i :: 0 < i < |bursts| ==> bursts[i].active - bursts[i - 1].active <= gap
  }

  /** The burst that took number k. */
  lemma {:induction false} TakenBy(bursts: seq<Burst>, rate: nat, k: int, last: nat) returns (i: nat)
    requires last < |bursts| && bursts[0].active == 0
    requires 0 < k <= Total(bursts[last], rate)
    ensures 0 < i <= last && Total(bursts[i - 1], rate) < k <= Total(bursts[i], rate)
  {
    if k <= Total(bursts[if last == 0 then 0 else last - 1], rate) {
      i := TakenBy(bursts, rate, k, last - 1);
    } else {
      i := last;
    }
  }

  /** The last burst before time t, if any ran before it. */
  lemma {:induction false} LastBefore(bursts: seq<Burst>, t: int, n: nat) returns (j: int)
    requires n <= |bursts|
    requires forall i, k :: 0 <= i < k < |bursts| ==> bursts[i].at <= bursts[k].at
    ensures -1 <= j < n
    ensures forall i :: 0 <= i < n ==> (bursts[i].at < t <==> i <= j)
  {
    if n == 0 || bursts[n - 1].at < t {
      j := n - 1;
    } else {
      j := LastBefore(bursts, t, n - 1);
    }
  }

  /** What burst j or an earlier one took is stamped no later than burst j. */
  lemma StampedNoLater(bursts: seq<Burst>, rate: nat, stamps: map<int, int>, j: nat, k: int)
    requires j < |bursts| && bursts[0].active == 0 && BurstsInOrder(bursts)
    requires StampedInBursts(bursts, rate, stamps)
    requires k in stamps && 0 < k <= Total(bursts[j], rate)
    ensures stamps[k] <= bursts[j].at
  {
    var i := TakenBy(bursts, rate, k, j);
    assert StampedBy(bursts, rate, stamps, i, k);
    assert i < j ==> InOrder(bursts[i], bursts[j]);
  }

  /** What is taken within `bound` microseconds of active time. */
  lemma TakenWithin(from: nat, to: nat, bound: nat, rate: nat)
    requires from <= to <= from + bound
    ensures to * rate / MICROS_PER_SECOND - from * rate / MICROS_PER_SECOND
            <= bound * rate / MICROS_PER_SECOND + 1
    ensures from * rate / MICROS_PER_SECOND <= to * rate / MICROS_PER_SECOND
    ensures bound * rate / MICROS_PER_SECOND >= 0
  {
    Pacing.ProductNonNegative(bound, rate);
    Pacing.FloorMonotone(from, to, rate);
    Pacing.FloorMonotone(to - from, bound, rate);
    Pacing.FloorOfActive(from, to, rate);
  }

  predicate NothingOverdue(s: System, timeout: nat) {
    forall k :: k in s.client.pending && k < s.client.packetSequence ==> s.now - s.client.pending[k] <= timeout
  }

  /** The last burst before time t, and how much active time went by since. */
  lemma ActiveSince(bursts: seq<Burst>, t: int, late: nat, gap: nat) returns (j: int)
    requires bursts != [] && bursts[0].active == 0 && BurstsInOrder(bursts) && Frequent(bursts, gap)
    requires bursts[|bursts| - 1].at <= t + late
    ensures -1 <= j < |bursts|
    ensures forall i :: 0 <= i < |bursts| ==> (bursts[i].at < t <==> i <= j)
    ensures var past := if j == -1 then 0 else bursts[j].active;
            0 <= past <= bursts[|bursts| - 1].active <= past + (late + gap)
  {
    var last := |bursts| - 1;
    forall i, k | 0 <= i < k < |bursts|
      ensures bursts[i].at <= bursts[k].at
    {
      assert InOrder(bursts[i], bursts[k]);
    }
    j := LastBefore(bursts, t, |bursts|);
    if j > 0 {
      assert InOrder(bursts[0], bursts[j]);
    }
    if j < last {
      assert j + 1 < last ==> InOrder(bursts[j + 1], bursts[last]);
      if j >= 0 {
        assert InOrder(bursts[j], bursts[last]);
        assert bursts[j + 1].active - bursts[j + 1 - 1].active <= gap;
      }
    }
  }

  lemma PendingBoundAt(s: System, rate: nat, timeout: nat, bursts: seq<Burst>, gap: nat)
    requires CursorBounds(s) && StampOrder(s) && NothingOverdue(s, timeout)
    requires bursts != [] && bursts[0].active == 0 && BurstsInOrder(bursts) && Frequent(bursts, gap)
    requires bursts[|bursts| - 1].at <= s.now
    requires StampedInBursts(bursts, rate, s.history.stamps)
    requires s.client.packetSequence <= Total(bursts[|bursts| - 1], rate)
    ensures |s.client.pending| <= (timeout + gap) * rate / MICROS_PER_SECOND + 1
  {
    var last, n := |bursts| - 1, s.client.packetSequence;
    var j := ActiveSince(bursts, s.now - timeout, timeout, gap);
    var past := if j == -1 then 0 else bursts[j].active;
    var low := past * rate / MICROS_PER_SECOND;
    assert |s.client.pending| == |s.client.pending.Keys|;
    TakenWithin(past, bursts[last].active, timeout + gap, rate);
    Pacing.FloorMonotone(0, past, rate);
    forall k | k in s.client.pending.Keys && k < n
      ensures low < k < n
    {
      if j >= 0 && k <= low {
        StampedNoLater(bursts, rate, s.history.stamps, j, k);
      }
    }
    Sets.IntervalSize(s.client.pending.Keys, if low < n then low + 1 else n, n);
  }

  /** What the bound needs of a schedule, from its invariants. */
  lemma ScheduleWhenSweepEnds(conf: Stream, start: Micros, moves: seq<Move>)
    requires var p := Follow(conf, start, moves); Fits(p, conf.sendRate) && Accounting.SweepEnds(conf, p.sys)
    ensures var p := Follow(conf, start, moves);
            && CursorBounds(p.sys) && StampOrder(p.sys) && NothingOverdue(p.sys, conf.TimeoutMicros())
            && p.bursts[0].active == 0 && BurstsInOrder(p.bursts) && p.Last().at <= p.sys.now
            && StampedInBursts(p.bursts, conf.sendRate, p.sys.history.stamps)
            && p.sys.client.packetSequence <= Total(p.Last(), conf.sendRate)
  {
    var steps := ScheduleIsARun(conf, start, moves);
    InvAlways(conf, start, steps);
    Accounting.SweepLeavesNothingOverdue(conf, start, steps);
    ScheduleInvariants(conf, start, moves);
    BurstsTakeTotals(conf, start, moves);
  }

  /** Right after a sweep of the timeout handler, under every schedule whose bursts
      are at most `gap` of active time apart, at most
      floor((timeout + gap) * rate / 10^6) + 1 packets are pending, be it between
      bursts, within one, or during a suspension. */
  lemma PendingBound(conf: Stream, start: Micros, moves: seq<Move>, gap: nat)
    requires var p := Follow(conf, start, moves);
             && Fits(p, conf.sendRate) && Frequent(p.bursts, gap)
             && Accounting.SweepEnds(conf, p.sys)
    ensures |Follow(conf, start, moves).sys.client.pending|
            <= (conf.packetTimeout * 1_000_000 + gap) * conf.sendRate / MICROS_PER_SECOND + 1
  {
    var p := Follow(conf, start, moves);
    ScheduleWhenSweepEnds(conf, start, moves);
    PendingBoundAt(p.sys, conf.sendRate, conf.TimeoutMicros(), p.bursts, gap);
  }

  // ---------------------------------------------------------------------
  // The bound is met

  /** After some active time, numbers up to n are due. */
  predicate ExactlyDue(active: int, rate: nat, n: int) {
    active >= 0 && active * rate < Pacing.TWO_63 && active * rate / MICROS_PER_SECOND == n
  }

  lemma TargetWhenDue(active: int, rate: nat, n: int)
    requires ExactlyDue(active, rate, n)
    ensures Pacing.Target(active, rate) == n
  {
    Pacing.TargetExactIff(active, rate);
  }

  /** The sender sleeps until time t and finds the next `due` numbers due. */
  lemma Wakes(conf: Stream, start: Micros, moves: seq<Move>, t: Micros, due: nat) returns (longer: seq<Move>)
    requires var p := Follow(conf, start, moves);
             && p.mode.Sleeping? && p.sys.sender.Ready? && p.sys.now <= t
             && ExactlyDue(t - start - p.pausePeriod, conf.sendRate, p.sys.client.packetSequence + due)
    ensures var p, p' := Follow(conf, start, moves), Follow(conf, start, longer);
            && p'.mode == Bursting(p.sys.client.packetSequence + due)
            && p'.sys == p.sys.(now := t)
            && p'.bursts == p.bursts + [Burst(t, t - start - p.pausePeriod)]
            && p'.pausePeriod == p.pausePeriod
  {
    SleepsUntil(conf, start, moves, t);
    longer := moves + [Do(Tick(t))];
    FindsDue(conf, start, longer, due);
    longer := longer + [WakeUp];
  }

  lemma SleepsUntil(conf: Stream, start: Micros, moves: seq<Move>, t: Micros)
    requires Follow(conf, start, moves).mode.Sleeping? && Follow(conf, start, moves).sys.now <= t
    ensures var p := Follow(conf, start, moves);
            Follow(conf, start, moves + [Do(Tick(t))]) == p.(sys := p.sys.(now := t))
  {
    FollowExtends(conf, start, moves, Do(Tick(t)));
  }

  lemma FindsDue(conf: Stream, start: Micros, moves: seq<Move>, due: nat)
    requires var p := Follow(conf, start, moves);
             && p.mode.Sleeping? && p.sys.sender.Ready?
             && ExactlyDue(p.sys.now - start - p.pausePeriod, conf.sendRate, p.sys.client.packetSequence + due)
    ensures var p, p' := Follow(conf, start, moves), Follow(conf, start, moves + [WakeUp]);
            && p'.mode == Bursting(p.sys.client.packetSequence + due)
            && p'.sys == p.sys && p'.pausePeriod == p.pausePeriod
            && p'.bursts == p.bursts + [Burst(p.sys.now, p.sys.now - start - p.pausePeriod)]
  {
    var p := Follow(conf, start, moves);
    TargetWhenDue(p.sys.now - start - p.pausePeriod, conf.sendRate, p.sys.client.packetSequence + due);
    FollowExtends(conf, start, moves, WakeUp);
  }

  /** In a burst the sender takes its steps. */
  lemma SenderDoes(conf: Stream, start: Micros, moves: seq<Move>, step: Step, target: int)
    requires Follow(conf, start, moves).mode == Bursting(target)
    requires !step.Tick? && !step.AdvanceCursor?
    requires step.TakeNumber? ==> Follow(conf, start, moves).sys.client.packetSequence < target
    ensures var p := Follow(conf, start, moves);
            Follow(conf, start, moves + [Do(step)]) == p.(sys := Next(conf, p.sys, step))
  {
    FollowExtends(conf, start, moves, Do(step));
  }

  /** One more number is pending since time t, and the timeout handler has not moved. */
  predicate OneMore(s: System, s': System, t: int) {
    && s'.sender.Ready? && s'.now == t && s'.scanner == s.scanner
    && s'.client.packetSequence == s.client.packetSequence + 1
    && s'.client.pending == s.client.pending[s'.client.packetSequence := t]
    && s'.client.cursor == s.client.cursor
  }

  /** In a burst one number is due and goes out. */
  lemma SendsDue(conf: Stream, start: Micros, moves: seq<Move>) returns (longer: seq<Move>)
    requires var p := Follow(conf, start, moves);
             p.mode == Bursting(p.sys.client.packetSequence + 1) && p.sys.sender.Ready?
    ensures var p, p' := Follow(conf, start, moves), Follow(conf, start, longer);
            OneMore(p.sys, p'.sys, p.sys.now) && p' == p.(sys := p'.sys)
  {
    var target := Follow(conf, start, moves).mode.target;
    Accounting.SendSteps(conf, Follow(conf, start, moves).sys);
    SenderDoes(conf, start, moves, TakeNumber, target);
    longer := moves + [Do(TakeNumber)];
    SenderDoes(conf, start, longer, TakeStamp, target);
    longer := longer + [Do(TakeStamp)];
    SenderDoes(conf, start, longer, EnqueueNumber, target);
    longer := longer + [Do(EnqueueNumber)];
    SenderDoes(conf, start, longer, WriteSucceeds, target);
    longer := longer + [Do(WriteSucceeds)];
    SenderDoes(conf, start, longer, CountSuccess, target);
    longer := longer + [Do(CountSuccess)];
  }

  /** A wake-up at time t finds nothing due. */
  lemma WakesIdly(conf: Stream, start: Micros, moves: seq<Move>, t: Micros) returns (longer: seq<Move>)
    requires var p := Follow(conf, start, moves);
             && p.mode.Sleeping? && p.sys.sender.Ready? && p.sys.now <= t
             && ExactlyDue(t - start - p.pausePeriod, conf.sendRate, p.sys.client.packetSequence)
    ensures var p, p' := Follow(conf, start, moves), Follow(conf, start, longer);
            && p'.mode.Sleeping?
            && p'.sys == p.sys.(now := t)
            && p'.bursts == p.bursts + [Burst(t, t - start - p.pausePeriod)]
            && p'.pausePeriod == p.pausePeriod
  {
    longer := Wakes(conf, start, moves, t, 0);
    EndsBurst(conf, start, longer);
    longer := longer + [EndBurst];
  }

  /** The sender wakes up at time t, finds one number due, and sends it. */
  lemma WakesAndSends(conf: Stream, start: Micros, moves: seq<Move>, t: Micros) returns (longer: seq<Move>)
    requires var p := Follow(conf, start, moves);
             && p.mode.Sleeping? && p.sys.sender.Ready? && p.sys.now <= t
             && ExactlyDue(t - start - p.pausePeriod, conf.sendRate, p.sys.client.packetSequence + 1)
    ensures var p, p' := Follow(conf, start, moves), Follow(conf, start, longer);
            && p'.mode.Sleeping? && OneMore(p.sys, p'.sys, t)
            && p'.bursts == p.bursts + [Burst(t, t - start - p.pausePeriod)]
            && p'.pausePeriod == p.pausePeriod
  {
    var awake := Wakes(conf, start, moves, t, 1);
    var sent := SendsDue(conf, start, awake);
    EndsBurst(conf, start, sent);
    longer := sent + [EndBurst];
  }

  lemma DueByHalves(n: nat)
    requires n < 2
    ensures ExactlyDue(n * MICROS_PER_SECOND + 500_000, 1, n)
    ensures ExactlyDue(n * MICROS_PER_SECOND + 1_000_000, 1, n + 1)
  {
  }

  /** At one packet a second, half a second after n seconds nothing is due. */
  lemma HalfSecond(conf: Stream, start: Micros, moves: seq<Move>, n: nat) returns (longer: seq<Move>)
    requires conf.sendRate == 1 && n < 2
    requires var p := Follow(conf, start, moves);
             && p.mode.Sleeping? && p.sys.sender.Ready? && p.pausePeriod == 0
             && p.sys.client.packetSequence == n && p.sys.now <= start + n * MICROS_PER_SECOND
    ensures var p, p' := Follow(conf, start, moves), Follow(conf, start, longer);
            var t := start + n * MICROS_PER_SECOND + 500_000;
            && p'.mode.Sleeping? && p'.sys == p.sys.(now := t)
            && p'.bursts == p.bursts + [Burst(t, t - start)]
            && p'.pausePeriod == 0
  {
    DueByHalves(n);
    longer := WakesIdly(conf, start, moves, start + n * MICROS_PER_SECOND + 500_000);
  }

  /** At one packet a second: half a second after n seconds nothing is due, and after
      another half the next number is. */
  lemma NextSecond(conf: Stream, start: Micros, moves: seq<Move>, n: nat) returns (longer: seq<Move>)
    requires conf.sendRate == 1 && n < 2
    requires var p := Follow(conf, start, moves);
             && p.mode.Sleeping? && p.sys.sender.Ready? && p.pausePeriod == 0
             && p.sys.client.packetSequence == n && p.sys.now <= start + n * MICROS_PER_SECOND
    ensures var p, p' := Follow(conf, start, moves), Follow(conf, start, longer);
            var at := start + n * MICROS_PER_SECOND;
            && p'.mode.Sleeping? && OneMore(p.sys, p'.sys, at + 1_000_000) && p'.pausePeriod == 0
            && p'.bursts == p.bursts + [Burst(at + 500_000, at + 500_000 - start)]
                            + [Burst(at + 1_000_000, at + 1_000_000 - start)]
  {
    var at := start + n * MICROS_PER_SECOND;
    var half := HalfSecond(conf, start, moves, n);
    DueByHalves(n);
    longer := WakesAndSends(conf, start, half, at + 1_000_000);
  }

  lemma TwoPending(conf: Stream, start: Micros) returns (moves: seq<Move>)
    requires conf.sendRate == 1
    ensures var p := Follow(conf, start, moves);
            && p.mode.Sleeping? && p.sys.scanner.AtGuard? && p.sys.now == start + 2_000_000
            && p.sys.client.packetSequence == 2 && p.sys.client.cursor == 1
            && p.sys.client.pending == map[1 := start + 1_000_000, 2 := start + 2_000_000]
            && p.bursts == [Burst(start, 0), Burst(start + 500_000, 500_000), Burst(start + 1_000_000, 1_000_000),
                            Burst(start + 1_500_000, 1_500_000), Burst(start + 2_000_000, 2_000_000)]
  {
    FollowExtends(conf, start, [], Do(BeginTraffic));
    moves := [] + [Do(BeginTraffic)];
    moves := NextSecond(conf, start, moves, 0);
    moves := NextSecond(conf, start, moves, 1);
  }

  /** A schedule that meets the bound: one packet a second, a timeout of one second,
      a wake-up every half second, and two packets pending when a sweep ends. */
  lemma PendingBoundIsMet(conf: Stream, start: Micros) returns (moves: seq<Move>)
    requires conf.sendRate == 1 && conf.packetTimeout == 1
    ensures var p, gap := Follow(conf, start, moves), 500_000;
            && Fits(p, conf.sendRate) && Frequent(p.bursts, gap) && Accounting.SweepEnds(conf, p.sys)
            && |p.sys.client.pending| == (conf.packetTimeout * 1_000_000 + gap) * conf.sendRate / 1_000_000 + 1
  {
    var two := TwoPending(conf, start);
    FollowExtends(conf, start, two, Do(Admit));
    moves := two + [Do(Admit)];
  }
}
