/** The sender's schedule around the step system: it wakes up, computes a target,
    and sends until the target is reached; or it sits out a suspension and measures
    it. Bursts take no time: the clock stands still while one runs, but the reader,
    the timeout handler, the network and the servers go on. */
module Paced {
  import opened Common
  import opened Config
  import opened Client
  import opened Protocol
  import Pacing

  datatype Mode =
    | Sleeping
    | Bursting(target: int)
    | Suspended(since: int)

  /** A burst of the sender: when it ran, and the active time its target came from. */
  datatype Burst = Burst(at: int, active: int)

  /** A run of the step system under the sender's schedule. The bursts and the pacing
      events are a record of it; the start counts as an empty burst. */
  datatype Schedule = Schedule(
    sys: System,
    mode: Mode,
    pausePeriod: int,
    bursts: seq<Burst>,
    events: seq<Pacing.Event>
  ) {
    function Last(): Burst
      requires bursts != []
    {
      bursts[|bursts| - 1]
    }

    /** The time up to which the sender has been active or measured its pauses. */
    function Reading(): int {
      if mode.Suspended? then mode.since else sys.now
    }
  }

  datatype Move =
    | WakeUp
    | EndBurst
    | FallSuspended
    | Resume
    | Do(step: Step)

  function Begin(start: Micros): Schedule {
    Schedule(Init(start), Sleeping, 0, [Burst(start, 0)], [])
  }

  /** The sender takes numbers only in a burst and up to its target; the clock stands
      still in a burst. */
  predicate Allowed(conf: Stream, p: Schedule, step: Step) {
    match p.mode
    case Bursting(target) =>
      && Next(conf, p.sys, step).now == p.sys.now
      && (step.TakeNumber? ==> p.sys.client.packetSequence < target)
    case _ => !step.TakeNumber?
  }

  function NextMove(conf: Stream, start: Micros, p: Schedule, move: Move): Schedule {
    var now := p.sys.now;
    match move
    case WakeUp =>
      if p.mode.Sleeping? && p.sys.sender.Ready? then
        var active := now - start - p.pausePeriod;
        p.(mode := Bursting(Pacing.Target(active, conf.sendRate)),
           bursts := p.bursts + [Burst(now, active)],
           events := p.events + [Pacing.Wake(now)])
      else p
    case EndBurst =>
      if p.mode.Bursting? && p.sys.sender.Ready? && p.sys.client.packetSequence >= p.mode.target
      then p.(mode := Sleeping)
      else p
    case FallSuspended =>
      if p.mode.Sleeping? && p.sys.sender.Ready? then p.(mode := Suspended(now)) else p
    case Resume =>
      if p.mode.Suspended? then
        p.(mode := Sleeping,
           pausePeriod := p.pausePeriod + (now - p.mode.since),
           events := p.events + [Pacing.Suspend(p.mode.since, now)])
      else p
    case Do(step) =>
      if Allowed(conf, p, step) then p.(sys := Next(conf, p.sys, step)) else p
  }

  function Follow(conf: Stream, start: Micros, moves: seq<Move>): Schedule {
    if moves == [] then Begin(start)
    else NextMove(conf, start, Follow(conf, start, moves[..|moves| - 1]), moves[|moves| - 1])
  }

  /** A schedule is a run of the step system, so all that holds in every run holds
      under every schedule. */
  lemma {:induction false} ScheduleIsARun(conf: Stream, start: Micros, moves: seq<Move>) returns (steps: seq<Step>)
    ensures Follow(conf, start, moves).sys == Exec(conf, start, steps)
  {
    steps := [];
    if moves != [] {
      var prefix, move := moves[..|moves| - 1], moves[|moves| - 1];
      steps := ScheduleIsARun(conf, start, prefix);
      if move.Do? && Allowed(conf, Follow(conf, start, prefix), move.step) {
        assert (steps + [move.step])[..|steps|] == steps;
        steps := steps + [move.step];
      }
    }
  }

  // ---------------------------------------------------------------------
  // Readings and bursts

  /** Of two bursts the later one has no less active time, and no more than the time
      between them. */
  predicate InOrder(b: Burst, c: Burst) {
    0 <= c.active - b.active <= c.at - b.at
  }

  predicate BurstsInOrder(bursts: seq<Burst>) {
    forall i, j :: 0 <= i < j < |bursts| ==> InOrder(bursts[i], bursts[j])
  }

  predicate Readings(start: Micros, p: Schedule) {
    && |p.bursts| > 0 && p.bursts[0] == Burst(start, 0)
    && BurstsInOrder(p.bursts)
    && p.Last().at <= p.Reading() <= p.sys.now
    && p.Last().at - start - p.Last().active <= p.pausePeriod
    && p.Last().active <= p.Reading() - start - p.pausePeriod
    && (p.mode.Bursting? ==>
          && |p.bursts| > 1 && p.Last().at == p.sys.now
          && p.Last().active == p.sys.now - start - p.pausePeriod)
  }

  lemma ReadingsStep(conf: Stream, start: Micros, p: Schedule, move: Move)
    requires Readings(start, p)
    ensures Readings(start, NextMove(conf, start, p, move))
  {
    var p' := NextMove(conf, start, p, move);
    if p'.bursts != p.bursts {
      forall i | 0 <= i < |p.bursts|
        ensures InOrder(p.bursts[i], p'.Last())
      {
        assert i < |p.bursts| - 1 ==> InOrder(p.bursts[i], p.Last());
      }
    }
  }

  // ---------------------------------------------------------------------
  // The sender follows the pacer

  /** Between packets the sender is at rest; in a packet it is in a burst, and what it
      has stamped it has stamped now. */
  predicate InBurst(p: Schedule) {
    && (p.sys.sender.Ready? || p.sys.sender.Preamble? || p.mode.Bursting?)
    && (p.sys.sender.Stamped? ==> p.sys.sender.stamp == p.sys.now)
    && (!p.mode.Sleeping? ==> !p.sys.sender.Preamble?)
  }

  predicate FollowsPacer(conf: Stream, start: Micros, p: Schedule) {
    var pacer, n := Pacing.Run(start, conf.sendRate, p.events), p.sys.client.packetSequence;
    && Pacing.ClockOrdered(start, p.events)
    && Pacing.LastReading(start, p.events) <= p.Reading() <= p.sys.now
    && pacer.pausePeriod == p.pausePeriod
    && pacer.packetSequence == if p.mode.Bursting? then Max(n, p.mode.target) else n
  }

  lemma InBurstStep(conf: Stream, start: Micros, p: Schedule, move: Move)
    requires InBurst(p)
    ensures InBurst(NextMove(conf, start, p, move))
  {
  }

  lemma OnlyTakingCounts(conf: Stream, s: System, step: Step)
    ensures var s' := Next(conf, s, step);
            && s.now <= s'.now
            && s'.client.packetSequence
               == s.client.packetSequence + if step.TakeNumber? && s.sender.Ready? then 1 else 0
  {
  }

  lemma FollowsPacerStep(conf: Stream, start: Micros, p: Schedule, move: Move)
    requires FollowsPacer(conf, start, p)
    ensures FollowsPacer(conf, start, NextMove(conf, start, p, move))
  {
    if move.Do? {
      OnlyTakingCounts(conf, p.sys, move.step);
    } else {
      FollowsPacerEvent(conf, start, p, move);
    }
  }

  lemma FollowsPacerEvent(conf: Stream, start: Micros, p: Schedule, move: Move)
    requires FollowsPacer(conf, start, p) && !move.Do?
    ensures FollowsPacer(conf, start, NextMove(conf, start, p, move))
  {
    var p' := NextMove(conf, start, p, move);
    if p'.events != p.events {
      assert p'.events[..|p.events|] == p.events;
    }
  }

  lemma {:induction false} ScheduleInvariants(conf: Stream, start: Micros, moves: seq<Move>)
    ensures var p := Follow(conf, start, moves);
            Readings(start, p) && InBurst(p) && FollowsPacer(conf, start, p)
  {
    if moves != [] {
      var p, move := Follow(conf, start, moves[..|moves| - 1]), moves[|moves| - 1];
      ScheduleInvariants(conf, start, moves[..|moves| - 1]);
      ReadingsStep(conf, start, p, move);
      InBurstStep(conf, start, p, move);
      FollowsPacerStep(conf, start, p, move);
    }
  }

  /** Under every schedule the sender does what the pacer says: outside bursts the
      numbers taken and the pause period are the pacer's after the wake-ups and
      suspensions so far. So what is proved of the pacer is proved of the sender. */
  lemma SenderFollowsPacer(conf: Stream, start: Micros, moves: seq<Move>)
    requires !Follow(conf, start, moves).mode.Bursting?
    ensures var p := Follow(conf, start, moves);
            && Pacing.ClockOrdered(start, p.events)
            && Pacing.Run(start, conf.sendRate, p.events)
               == Pacing.Pacer(p.sys.client.packetSequence, p.pausePeriod)
  {
    ScheduleInvariants(conf, start, moves);
  }

  // ---------------------------------------------------------------------
  // Which burst took which number

  /** The numbers taken when a burst has run to its end. */
  function Total(b: Burst, rate: nat): int {
    b.active * rate / MICROS_PER_SECOND
  }

  /** The targets so far are within 64 bits. */
  predicate Fits(p: Schedule, rate: nat) {
    p.bursts != [] && p.Last().active * rate < Pacing.TWO_63
  }

  /** Number k bears the time of burst i if that burst took it. */
  predicate StampedBy(bursts: seq<Burst>, rate: nat, stamps: map<int, int>, i: int, k: int)
    requires 0 < i < |bursts|
  {
    k in stamps && Total(bursts[i - 1], rate) < k <= Total(bursts[i], rate) ==> stamps[k] == bursts[i].at
  }

  ghost predicate StampedInBursts(bursts: seq<Burst>, rate: nat, stamps: map<int, int>) {
    forall i, k :: 0 < i < |bursts| ==> StampedBy(bursts, rate, stamps, i, k)
  }

  predicate Totals(p: Schedule, rate: nat)
    requires p.bursts != []
  {
    var n := p.sys.client.packetSequence;
    if p.mode.Bursting? && |p.bursts| > 1 then
      && p.mode.target == Total(p.Last(), rate)
      && Total(p.bursts[|p.bursts| - 2], rate) <= n <= Total(p.Last(), rate)
      && (p.sys.sender.Ready? || n > Total(p.bursts[|p.bursts| - 2], rate))
    else n == Total(p.Last(), rate)
  }

  lemma LaterTotal(b: Burst, c: Burst, rate: nat)
    requires InOrder(b, c)
    ensures Total(b, rate) <= Total(c, rate) && b.active * rate <= c.active * rate
  {
    Pacing.FloorMonotone(b.active, c.active, rate);
  }

  lemma FitsBefore(conf: Stream, start: Micros, p: Schedule, move: Move)
    requires Readings(start, p) && Readings(start, NextMove(conf, start, p, move))
    requires Fits(NextMove(conf, start, p, move), conf.sendRate)
    ensures Fits(p, conf.sendRate)
  {
    var p' := NextMove(conf, start, p, move);
    if p'.bursts != p.bursts {
      assert InOrder(p'.bursts[|p.bursts| - 1], p'.bursts[|p.bursts|]);
      LaterTotal(p.Last(), p'.Last(), conf.sendRate);
    }
  }

  lemma TotalsStep(conf: Stream, start: Micros, p: Schedule, move: Move)
    requires Readings(start, p) && Readings(start, NextMove(conf, start, p, move)) && InBurst(p)
    requires Fits(NextMove(conf, start, p, move), conf.sendRate) && Totals(p, conf.sendRate)
    ensures Totals(NextMove(conf, start, p, move), conf.sendRate)
  {
    if move.WakeUp? {
      TotalsWakeUp(conf, start, p);
    } else if move.Do? {
      OnlyTakingCounts(conf, p.sys, move.step);
    }
  }

  lemma TotalsWakeUp(conf: Stream, start: Micros, p: Schedule)
    requires Readings(start, p) && Readings(start, NextMove(conf, start, p, WakeUp))
    requires Fits(NextMove(conf, start, p, WakeUp), conf.sendRate) && Totals(p, conf.sendRate)
    ensures Totals(NextMove(conf, start, p, WakeUp), conf.sendRate)
  {
    var p' := NextMove(conf, start, p, WakeUp);
    if p' != p {
      assert InOrder(p'.bursts[|p.bursts| - 1], p'.bursts[|p.bursts|]);
      assert InOrder(p'.bursts[0], p'.bursts[|p.bursts|]);
      LaterTotal(p.Last(), p'.Last(), conf.sendRate);
      Pacing.TargetExactIff(p'.Last().active, conf.sendRate);
    }
  }

  /** A wake-up takes no number: those stamped so far are of earlier bursts. */
  lemma StampsAfterWakeUp(p: Schedule, rate: nat, b: Burst)
    requires p.bursts != [] && StampedInBursts(p.bursts, rate, p.sys.history.stamps)
    requires StampOrder(p.sys) && p.sys.client.packetSequence <= Total(p.Last(), rate)
    ensures StampedInBursts(p.bursts + [b], rate, p.sys.history.stamps)
  {
    var bursts := p.bursts + [b];
    forall i, k | 0 < i < |bursts|
      ensures StampedBy(bursts, rate, p.sys.history.stamps, i, k)
    {
      if i < |p.bursts| {
        assert StampedBy(p.bursts, rate, p.sys.history.stamps, i, k);
      }
    }
  }

  /** A number stamped in the last burst bears its time. */
  lemma StampsAfterEnqueue(bursts: seq<Burst>, rate: nat, stamps: map<int, int>, n: int, t: int)
    requires |bursts| > 1 && BurstsInOrder(bursts) && StampedInBursts(bursts, rate, stamps)
    requires Total(bursts[|bursts| - 2], rate) < n && t == bursts[|bursts| - 1].at
    ensures StampedInBursts(bursts, rate, stamps[n := t])
  {
    var after := stamps[n := t];
    forall i, k | 0 < i < |bursts|
      ensures StampedBy(bursts, rate, after, i, k)
    {
      assert StampedBy(bursts, rate, stamps, i, k);
      if i < |bursts| - 2 {
        LaterTotal(bursts[i], bursts[|bursts| - 2], rate);
      }
    }
  }

  lemma StampsStep(conf: Stream, start: Micros, p: Schedule, move: Move)
    requires Readings(start, p) && InBurst(p) && Totals(p, conf.sendRate) && StampOrder(p.sys)
    requires StampedInBursts(p.bursts, conf.sendRate, p.sys.history.stamps)
    ensures var p' := NextMove(conf, start, p, move);
            StampedInBursts(p'.bursts, conf.sendRate, p'.sys.history.stamps)
  {
    var p' := NextMove(conf, start, p, move);
    if move.WakeUp? && p' != p {
      StampsAfterWakeUp(p, conf.sendRate, p'.Last());
    } else if move.Do? {
      OnlyEnqueueStamps(conf, p.sys, move.step);
      if move.step.EnqueueNumber? && p.sys.sender.Stamped? {
        StampsAfterEnqueue(p.bursts, conf.sendRate, p.sys.history.stamps, p.sys.client.packetSequence,
                           p.sys.sender.stamp);
      }
    }
  }

  lemma OnlyEnqueueStamps(conf: Stream, s: System, step: Step)
    ensures Next(conf, s, step).history.stamps
            == if step.EnqueueNumber? && s.sender.Stamped?
               then s.history.stamps[s.client.packetSequence := s.sender.stamp]
               else s.history.stamps
  {
  }

  /** While targets fit in 64 bits, every burst takes the numbers up to its total and
      stamps them with its time. */
  lemma {:induction false} BurstsTakeTotals(conf: Stream, start: Micros, moves: seq<Move>)
    requires Fits(Follow(conf, start, moves), conf.sendRate)
    ensures var p := Follow(conf, start, moves);
            && Totals(p, conf.sendRate)
            && StampedInBursts(p.bursts, conf.sendRate, p.sys.history.stamps)
  {
    ScheduleInvariants(conf, start, moves);
    if moves != [] {
      var prefix, move := moves[..|moves| - 1], moves[|moves| - 1];
      var p := Follow(conf, start, prefix);
      ScheduleInvariants(conf, start, prefix);
      FitsBefore(conf, start, p, move);
      BurstsTakeTotals(conf, start, prefix);
      var steps := ScheduleIsARun(conf, start, prefix);
      InvAlways(conf, start, steps);
      TotalsStep(conf, start, p, move);
      StampsStep(conf, start, p, move);
    }
  }

  // ---------------------------------------------------------------------
  // Active time by the clock

  /** The time a run has spent suspended: how far the clock went while the sender sat
      out a suspension. */
  function SuspendedFor(conf: Stream, start: Micros, moves: seq<Move>): int {
    if moves == [] then 0
    else
      var p, q := Follow(conf, start, moves[..|moves| - 1]), Follow(conf, start, moves);
      SuspendedFor(conf, start, moves[..|moves| - 1]) + if p.mode.Suspended? then q.sys.now - p.sys.now else 0
  }

  lemma PauseStep(conf: Stream, start: Micros, p: Schedule, move: Move)
    ensures var q := NextMove(conf, start, p, move);
            var before := p.pausePeriod + if p.mode.Suspended? then p.sys.now - p.mode.since else 0;
            var after := q.pausePeriod + if q.mode.Suspended? then q.sys.now - q.mode.since else 0;
            after - before == if p.mode.Suspended? then q.sys.now - p.sys.now else 0
  {
  }

  /** In every schedule the pause period, with what a suspension under way has taken so
      far, is the time really spent suspended. */
  lemma {:induction false} PauseIsSuspension(conf: Stream, start: Micros, moves: seq<Move>)
    ensures var p := Follow(conf, start, moves);
            p.pausePeriod + (if p.mode.Suspended? then p.sys.now - p.mode.since else 0)
            == SuspendedFor(conf, start, moves)
  {
    if moves != [] {
      PauseIsSuspension(conf, start, moves[..|moves| - 1]);
      PauseStep(conf, start, Follow(conf, start, moves[..|moves| - 1]), moves[|moves| - 1]);
    }
  }

  lemma FollowExtends(conf: Stream, start: Micros, moves: seq<Move>, move: Move)
    ensures Follow(conf, start, moves + [move]) == NextMove(conf, start, Follow(conf, start, moves), move)
  {
    assert (moves + [move])[..|moves|] == moves;
  }

  /** Between packets a sleeping sender may wake up and burst: it notes the time, and the
      time since the start less that spent suspended. */
  lemma WakesUp(conf: Stream, start: Micros, moves: seq<Move>)
    requires Follow(conf, start, moves).mode.Sleeping? && Follow(conf, start, moves).sys.sender.Ready?
    ensures var p, p' := Follow(conf, start, moves), Follow(conf, start, moves + [WakeUp]);
            var active := p.sys.now - start - SuspendedFor(conf, start, moves);
            && p'.mode.Bursting?
            && p'.bursts == p.bursts + [Burst(p.sys.now, active)]
            && p'.events == p.events + [Pacing.Wake(p.sys.now)]
            && p'.sys == p.sys && p'.pausePeriod == p.pausePeriod
  {
    PauseIsSuspension(conf, start, moves);
    FollowExtends(conf, start, moves, WakeUp);
  }

  /** Or it may find the traffic suspended, and note the time. */
  lemma FallsSuspended(conf: Stream, start: Micros, moves: seq<Move>)
    requires Follow(conf, start, moves).mode.Sleeping? && Follow(conf, start, moves).sys.sender.Ready?
    ensures var p := Follow(conf, start, moves);
            Follow(conf, start, moves + [FallSuspended]) == p.(mode := Suspended(p.sys.now))
  {
    FollowExtends(conf, start, moves, FallSuspended);
  }

  /** A suspended sender measures its pause when it goes on. */
  lemma Resumes(conf: Stream, start: Micros, moves: seq<Move>)
    requires Follow(conf, start, moves).mode.Suspended?
    ensures var p, p' := Follow(conf, start, moves), Follow(conf, start, moves + [Resume]);
            && p'.mode.Sleeping?
            && p'.pausePeriod == SuspendedFor(conf, start, moves)
            && p'.events == p.events + [Pacing.Suspend(p.mode.since, p.sys.now)]
            && p'.sys == p.sys && p'.bursts == p.bursts
  {
    FollowExtends(conf, start, moves, Resume);
    PauseIsSuspension(conf, start, moves);
  }

  /** A burst lasts until its target is reached, and ends then. */
  lemma EndsBurst(conf: Stream, start: Micros, moves: seq<Move>)
    requires Follow(conf, start, moves).mode.Bursting?
    ensures var p := Follow(conf, start, moves);
            Follow(conf, start, moves + [EndBurst])
            == if p.sys.sender.Ready? && p.sys.client.packetSequence >= p.mode.target then p.(mode := Sleeping) else p
  {
    FollowExtends(conf, start, moves, EndBurst);
  }

  /** Outside a burst everything but taking a number may happen; in one, everything
      that leaves the clock alone, with numbers taken only up to the target. */
  lemma Does(conf: Stream, start: Micros, moves: seq<Move>, step: Step)
    ensures var p := Follow(conf, start, moves);
            Follow(conf, start, moves + [Do(step)])
            == if MayDo(conf, p, step) then p.(sys := Next(conf, p.sys, step)) else p
  {
    FollowExtends(conf, start, moves, Do(step));
    AllowedMeans(conf, Follow(conf, start, moves), step);
  }

  predicate MayDo(conf: Stream, p: Schedule, step: Step) {
    if step.TakeNumber? then p.mode.Bursting? && p.sys.client.packetSequence < p.mode.target
    else !p.mode.Bursting? || Next(conf, p.sys, step).now == p.sys.now
  }

  lemma AllowedMeans(conf: Stream, p: Schedule, step: Step)
    ensures Allowed(conf, p, step) <==> MayDo(conf, p, step)
  {
  }

  /** In every schedule, each burst was begun by a wake-up; it ran at the time by the
      clock, and its active time is the time since the start less the time really
      spent suspended. */
  lemma {:induction false} BurstBegunBy(conf: Stream, start: Micros, moves: seq<Move>, i: nat) returns (n: nat)
    requires 0 < i < |Follow(conf, start, moves).bursts|
    ensures n < |moves| && moves[n].WakeUp?
    ensures |Follow(conf, start, moves[..n]).bursts| == i
    ensures |Follow(conf, start, moves[..n + 1]).bursts| == i + 1
    ensures var now := Follow(conf, start, moves[..n]).sys.now;
            Follow(conf, start, moves).bursts[i] == Burst(now, now - start - SuspendedFor(conf, start, moves[..n]))
  {
    var k := |moves| - 1;
    var p := Follow(conf, start, moves[..k]);
    if i < |p.bursts| {
      n := BurstBegunBy(conf, start, moves[..k], i);
      assert moves[..k][..n] == moves[..n] && moves[..k][..n + 1] == moves[..n + 1];
    } else {
      n := k;
      assert moves[..n + 1] == moves;
      PauseIsSuspension(conf, start, moves[..k]);
    }
  }

  /** So while targets fit in 64 bits, a sender that is not in a burst has taken the
      floor of rate times active time by the clock, at its last wake-up n. */
  lemma TakenByTheClock(conf: Stream, start: Micros, moves: seq<Move>) returns (n: nat)
    requires var p := Follow(conf, start, moves);
             !p.mode.Bursting? && |p.bursts| > 1 && Fits(p, conf.sendRate)
    ensures n < |moves| && moves[n].WakeUp?
    ensures |Follow(conf, start, moves[..n + 1]).bursts| == |Follow(conf, start, moves).bursts|
    ensures var active := Follow(conf, start, moves[..n]).sys.now - start - SuspendedFor(conf, start, moves[..n]);
            Follow(conf, start, moves).sys.client.packetSequence == active * conf.sendRate / 1_000_000
  {
    var p := Follow(conf, start, moves);
    n := BurstBegunBy(conf, start, moves, |p.bursts| - 1);
    BurstsTakeTotals(conf, start, moves);
  }
}
