/** The sender's burst and the timeout handler's sweep, run with nothing beside
    them, as functions of the stream state, and what they achieve. */
module Loops {
  import opened Config
  import opened Client
  import Protocol
  import Redial
  import Sets

  /** Clock readings, indexed by the sequence number they are taken for. */
  type Clock = int -> Micros

  predicate NotBefore(clock: Clock, i: int, j: int) {
    clock(i) <= clock(j)
  }

  ghost predicate NeverBackwards(clock: Clock) {
    forall i, j :: i <= j ==> NotBefore(clock, i, j)
  }

  /** Pending numbers lie between the cursor and the newest number, and their send
      times are in order of sequence numbers. */
  predicate Ordered(c: State) {
    && 1 <= c.cursor
    && (c.cursor <= c.packetSequence || c.cursor == 1)
    && (forall k :: k in c.pending ==> c.cursor <= k <= c.packetSequence)
    && (forall j, k :: j in c.pending && k in c.pending && j < k ==> c.pending[j] <= c.pending[k])
  }

  /** No pending packet was sent after now. */
  predicate SentBy(c: State, now: int) {
    forall k :: k in c.pending ==> c.pending[k] <= now
  }

  // ---------------------------------------------------------------------
  // The sender

  /** One packet: numbered, made pending and written, or withdrawn and counted as
      failed when it cannot be encoded or written. */
  function SendOne(c: State, stamp: int, encodes: bool, writes: bool): State {
    var n := NextNumber(c);
    if !encodes then CountFailed(n)
    else if !writes then CountFailed(Withdraw(Enqueue(n, stamp)))
    else CountSent(Enqueue(n, stamp))
  }

  /** Packets are sent one after another until the target is reached. */
  function SendUntil(c: State, target: int, clock: Clock, encodes: int -> bool, writes: int -> bool): State
    decreases target - c.packetSequence
  {
    if c.packetSequence < target then
      var k := c.packetSequence + 1;
      SendUntil(SendOne(c, clock(k), encodes(k), writes(k)), target, clock, encodes, writes)
    else c
  }

  /** A failed packet uses up its number and changes nothing else but the failure
      count; a packet that goes out is the newest pending one. */
  lemma SendOneEffect(c: State, stamp: int, encodes: bool, writes: bool)
    requires Ordered(c) && SentBy(c, stamp)
    ensures var d := SendOne(c, stamp, encodes, writes);
            && Ordered(d) && SentBy(d, stamp)
            && d == if encodes && writes
                    then c.(packetSequence := c.packetSequence + 1, sent := c.sent + 1,
                            pending := c.pending[c.packetSequence + 1 := stamp])
                    else c.(packetSequence := c.packetSequence + 1, sendFailed := c.sendFailed + 1)
  {
    var m := c.pending[c.packetSequence + 1 := stamp];
    assert m - {c.packetSequence + 1} == c.pending;
  }

  /** One packet of a burst. */
  lemma BurstTurn(c: State, target: int, clock: Clock, encodes: int -> bool, writes: int -> bool)
    requires c.packetSequence < target
    ensures var k := c.packetSequence + 1;
            SendUntil(c, target, clock, encodes, writes)
            == SendUntil(SendOne(c, clock(k), encodes(k), writes(k)), target, clock, encodes, writes)
  {
  }

  /** The sender's invariant over a burst. */
  lemma {:induction false} BurstOrdered(c: State, target: int, clock: Clock, encodes: int -> bool, writes: int -> bool)
    requires Ordered(c) && NeverBackwards(clock) && SentBy(c, clock(c.packetSequence))
    ensures var d := SendUntil(c, target, clock, encodes, writes);
            && Ordered(d) && SentBy(d, clock(d.packetSequence))
            && d.packetSequence == (if c.packetSequence < target then target else c.packetSequence)
    decreases target - c.packetSequence
  {
    if c.packetSequence < target {
      var k := c.packetSequence + 1;
      assert NotBefore(clock, c.packetSequence, k);
      SendOneEffect(c, clock(k), encodes(k), writes(k));
      BurstOrdered(SendOne(c, clock(k), encodes(k), writes(k)), target, clock, encodes, writes);
    }
  }

  /** What a burst from c to d means for number k: pending afterwards exactly when it
      was before or is one of the burst's that was encoded and written, and then with
      its send time. */
  predicate PendsAfterBurst(c: State, d: State, clock: Clock, encodes: int -> bool, writes: int -> bool, k: int) {
    && (k in d.pending <==> k in c.pending || (c.packetSequence < k <= d.packetSequence && encodes(k) && writes(k)))
    && (k in d.pending ==> d.pending[k] == if k in c.pending then c.pending[k] else clock(k))
  }

  lemma {:induction false} BurstEffectAt(c: State, target: int, clock: Clock, encodes: int -> bool,
                                         writes: int -> bool, k: int)
    requires Ordered(c) && NeverBackwards(clock) && SentBy(c, clock(c.packetSequence))
    ensures PendsAfterBurst(c, SendUntil(c, target, clock, encodes, writes), clock, encodes, writes, k)
    decreases target - c.packetSequence
  {
    if c.packetSequence < target {
      var n := c.packetSequence + 1;
      var one := SendOne(c, clock(n), encodes(n), writes(n));
      assert NotBefore(clock, c.packetSequence, n);
      SendOneEffect(c, clock(n), encodes(n), writes(n));
      BurstOrdered(one, target, clock, encodes, writes);
      BurstTurn(c, target, clock, encodes, writes);
      BurstEffectAt(one, target, clock, encodes, writes, k);
    }
  }

  /** After a burst every number of it was either sent, and is pending with its send
      time, or counted as failed; what was pending before still is. */
  lemma BurstEffect(c: State, target: int, clock: Clock, encodes: int -> bool, writes: int -> bool)
    requires Ordered(c) && NeverBackwards(clock) && SentBy(c, clock(c.packetSequence))
    ensures var d := SendUntil(c, target, clock, encodes, writes);
            forall k :: PendsAfterBurst(c, d, clock, encodes, writes, k)
  {
    forall k
      ensures PendsAfterBurst(c, SendUntil(c, target, clock, encodes, writes), clock, encodes, writes, k)
    {
      BurstEffectAt(c, target, clock, encodes, writes, k);
    }
  }

  /** A burst accounts for each of its numbers: sent or failed, and sent ones pend. */
  lemma {:induction false} BurstCounts(c: State, target: int, clock: Clock, encodes: int -> bool, writes: int -> bool)
    requires forall k :: k in c.pending ==> k <= c.packetSequence
    ensures var d := SendUntil(c, target, clock, encodes, writes);
            && d.packetSequence - c.packetSequence == (d.sent - c.sent) + (d.sendFailed - c.sendFailed)
            && |d.pending| - |c.pending| == d.sent - c.sent
            && d == c.(packetSequence := d.packetSequence, pending := d.pending, sent := d.sent,
                       sendFailed := d.sendFailed)
    decreases target - c.packetSequence
  {
    if c.packetSequence < target {
      var k := c.packetSequence + 1;
      var one := SendOne(c, clock(k), encodes(k), writes(k));
      PendingAfterOne(c, clock(k), encodes(k), writes(k));
      BurstCounts(one, target, clock, encodes, writes);
      assert SendUntil(c, target, clock, encodes, writes) == SendUntil(one, target, clock, encodes, writes);
    }
  }

  lemma PendingAfterOne(c: State, stamp: int, encodes: bool, writes: bool)
    requires forall k :: k in c.pending ==> k <= c.packetSequence
    ensures var one := SendOne(c, stamp, encodes, writes);
            && (forall k :: k in one.pending ==> k <= one.packetSequence)
            && |one.pending| - |c.pending| == one.sent - c.sent
            && 1 == (one.sent - c.sent) + (one.sendFailed - c.sendFailed)
            && one == c.(packetSequence := c.packetSequence + 1, pending := one.pending, sent := one.sent,
                         sendFailed := one.sendFailed)
  {
    var k, m := c.packetSequence + 1, c.pending[c.packetSequence + 1 := stamp];
    assert m.Keys == c.pending.Keys + {k} && m - {k} == c.pending;
    assert |m| == |m.Keys| && |c.pending| == |c.pending.Keys|;
  }

  // ---------------------------------------------------------------------
  // The timeout handler

  /** One turn of the sweep at the cursor, when the packet there is not young. */
  function Turn(c: State, now: int, timeout: nat): State {
    if Check(c, now, timeout) == Overdue then Advance(Drop(c)) else Advance(c)
  }

  predicate Stops(c: State, now: int, timeout: nat) {
    c.cursor >= c.packetSequence || Check(c, now, timeout) == Young
  }

  /** The sweep: it walks on from the cursor and stops at the newest number or at
      the first packet that is not overdue. */
  function Walk(c: State, clock: Clock, timeout: nat): State
    decreases c.packetSequence - c.cursor
  {
    if Stops(c, clock(c.cursor), timeout) then c else Walk(Turn(c, clock(c.cursor), timeout), clock, timeout)
  }

  /** What the redial code meets after a drop: its two clock readings, and what a
      dial would return. */
  datatype Dialling = Dialling(first: Micros, second: Micros, dialOk: bool)

  /** What the redial controller learns from one turn. */
  function TurnEvent(c: State, now: int, timeout: nat, d: Dialling): Redial.Settled {
    if Check(c, now, timeout) == Overdue then Redial.Dropped(d.first, d.second, d.dialOk) else Redial.Missing
  }

  function WalkEvents(c: State, clock: Clock, timeout: nat, dials: int -> Dialling): seq<Redial.Settled>
    decreases c.packetSequence - c.cursor
  {
    var now := clock(c.cursor);
    if Stops(c, now, timeout) then []
    else [TurnEvent(c, now, timeout, dials(c.cursor))] + WalkEvents(Turn(c, now, timeout), clock, timeout, dials)
  }

  /** The redial controller's state after a walk. */
  function WalkRedial(conf: Stream, c: State, st: Redial.State, clock: Clock, timeout: nat, dials: int -> Dialling)
    : Redial.State
    decreases c.packetSequence - c.cursor
  {
    var now := clock(c.cursor);
    if Stops(c, now, timeout) then st
    else
      var e := TurnEvent(c, now, timeout, dials(c.cursor));
      WalkRedial(conf, Turn(c, now, timeout), Redial.Step(conf, st, e), clock, timeout, dials)
  }

  /** A walk takes the controller from one point of its history to a later one. */
  lemma {:induction false} WalkRedialIsRun(conf: Stream, c: State, clock: Clock, timeout: nat, dials: int -> Dialling,
                                           history: seq<Redial.Settled>)
    ensures WalkRedial(conf, c, Redial.Run(conf, history), clock, timeout, dials)
            == Redial.Run(conf, history + WalkEvents(c, clock, timeout, dials))
    decreases c.packetSequence - c.cursor
  {
    var now := clock(c.cursor);
    if Stops(c, now, timeout) {
      assert history + [] == history;
    } else {
      var e, t := TurnEvent(c, now, timeout, dials(c.cursor)), Turn(c, now, timeout);
      Redial.RunExtends(conf, history, e);
      WalkRedialIsRun(conf, t, clock, timeout, dials, history + [e]);
      assert history + ([e] + WalkEvents(t, clock, timeout, dials))
             == history + [e] + WalkEvents(t, clock, timeout, dials);
    }
  }

  /** The numbers a scan of the whole pending map would drop. */
  function FullScan(c: State, now: int, timeout: nat): set<int> {
    set k | k in c.pending && k < c.packetSequence && now - c.pending[k] > timeout
  }

  lemma TurnOrdered(c: State, now: int, timeout: nat)
    requires Ordered(c) && !Stops(c, now, timeout)
    ensures var t := Turn(c, now, timeout);
            && Ordered(t)
            && (forall k :: k in t.pending <==> k in c.pending && k >= t.cursor)
            && (forall k :: k in t.pending ==> t.pending[k] == c.pending[k])
            && (c.cursor in c.pending ==> now - c.pending[c.cursor] > timeout)
  {
  }

  /** The walk removes a prefix of the pending numbers. */
  lemma {:induction false} WalkShape(c: State, clock: Clock, timeout: nat)
    requires Ordered(c)
    ensures var d := Walk(c, clock, timeout);
            && Ordered(d) && Stops(d, clock(d.cursor), timeout)
            && c.cursor <= d.cursor && (d.cursor == c.cursor || d.cursor <= c.packetSequence)
            && d.packetSequence == c.packetSequence
            && (forall k :: k in d.pending <==> k in c.pending && k >= d.cursor)
            && (forall k :: k in d.pending ==> d.pending[k] == c.pending[k])
    decreases c.packetSequence - c.cursor
  {
    var now := clock(c.cursor);
    if !Stops(c, now, timeout) {
      TurnOrdered(c, now, timeout);
      WalkShape(Turn(c, now, timeout), clock, timeout);
    }
  }

  /** What the walk removes was overdue. */
  lemma {:induction false} WalkDropsOverdue(c: State, clock: Clock, timeout: nat)
    requires Ordered(c) && NeverBackwards(clock)
    ensures var d := Walk(c, clock, timeout);
            forall k :: k in c.pending && k < d.cursor ==> clock(d.cursor) - c.pending[k] > timeout
    decreases c.packetSequence - c.cursor
  {
    var now := clock(c.cursor);
    WalkShape(c, clock, timeout);
    if !Stops(c, now, timeout) {
      TurnOrdered(c, now, timeout);
      WalkDropsOverdue(Turn(c, now, timeout), clock, timeout);
      assert NotBefore(clock, c.cursor, Walk(c, clock, timeout).cursor);
    }
  }

  lemma PendingAfterTurn(c: State, now: int, timeout: nat)
    ensures var t := Turn(c, now, timeout); t.dropped - c.dropped == |c.pending| - |t.pending|
  {
    var m := c.pending - {c.cursor};
    assert m.Keys == c.pending.Keys - {c.cursor} && |m| == |m.Keys| && |c.pending| == |c.pending.Keys|;
  }

  /** The walk counts what it removes and changes nothing else. */
  lemma {:induction false} WalkCounts(c: State, clock: Clock, timeout: nat)
    ensures var d := Walk(c, clock, timeout);
            && d.dropped - c.dropped == |c.pending| - |d.pending|
            && d == c.(cursor := d.cursor, pending := d.pending, dropped := d.dropped)
    decreases c.packetSequence - c.cursor
  {
    var now := clock(c.cursor);
    if Stops(c, now, timeout) {
      assert Walk(c, clock, timeout) == c;
    } else {
      PendingAfterTurn(c, now, timeout);
      WalkCounts(Turn(c, now, timeout), clock, timeout);
    }
  }

  /** Send times in order of sequence numbers make stopping at the first packet that
      is not overdue as good as going on. */
  lemma OrderMakesStoppingSafe(c: State, d: State, early: int, late: int, timeout: nat)
    requires Ordered(c) && early <= late && d.packetSequence == c.packetSequence
    requires forall k :: k in d.pending <==> k in c.pending && k >= d.cursor
    requires forall k :: k in d.pending ==> d.pending[k] == c.pending[k]
    requires forall k :: k in c.pending && k < d.cursor ==> k < c.packetSequence && late - c.pending[k] > timeout
    requires Stops(d, late, timeout)
    ensures var gone := c.pending.Keys - d.pending.Keys;
            && FullScan(c, early, timeout) <= gone <= FullScan(c, late, timeout)
            && FullScan(d, late, timeout) == {}
            && d.pending == c.pending - gone
  {
    var rest := c.pending - (c.pending.Keys - d.pending.Keys);
    assert forall k :: k in rest <==> k in d.pending;
    assert forall k :: k in rest ==> rest[k] == d.pending[k];
    assert d.pending == rest;
  }

  /** The walk refines the full scan although it stops early. It drops everything
      that was overdue when it began and nothing that was not overdue when it ended,
      and leaves nothing overdue behind. */
  lemma WalkRefinesFullScan(c: State, clock: Clock, timeout: nat)
    requires Ordered(c) && NeverBackwards(clock)
    ensures var d := Walk(c, clock, timeout); var gone := c.pending.Keys - d.pending.Keys;
            && FullScan(c, clock(c.cursor), timeout) <= gone <= FullScan(c, clock(d.cursor), timeout)
            && FullScan(d, clock(d.cursor), timeout) == {}
            && d.pending == c.pending - gone
            && d.dropped == c.dropped + |gone|
  {
    var d := Walk(c, clock, timeout);
    WalkShape(c, clock, timeout);
    WalkDropsOverdue(c, clock, timeout);
    WalkCounts(c, clock, timeout);
    assert NotBefore(clock, c.cursor, d.cursor);
    OrderMakesStoppingSafe(c, d, clock(c.cursor), clock(d.cursor), timeout);
    Sets.SubsetSize(d.pending.Keys, c.pending.Keys);
    assert |d.pending| == |d.pending.Keys| && |c.pending| == |c.pending.Keys|;
  }

  /** When the clock stands still from the beginning to the end of the walk, it drops
      exactly what a full scan would. */
  lemma FrozenWalkIsFullScan(c: State, clock: Clock, timeout: nat)
    requires Ordered(c) && NeverBackwards(clock)
    requires clock(Walk(c, clock, timeout).cursor) == clock(c.cursor)
    ensures var d := Walk(c, clock, timeout); var gone := FullScan(c, clock(c.cursor), timeout);
            d == c.(cursor := d.cursor, pending := c.pending - gone, dropped := c.dropped + |gone|)
  {
    WalkRefinesFullScan(c, clock, timeout);
    WalkCounts(c, clock, timeout);
    var d := Walk(c, clock, timeout);
    assert c.pending.Keys - d.pending.Keys == FullScan(c, clock(c.cursor), timeout);
  }

  lemma {:induction false} WalkEventsLength(c: State, clock: Clock, timeout: nat, dials: int -> Dialling)
    ensures |WalkEvents(c, clock, timeout, dials)| == Walk(c, clock, timeout).cursor - c.cursor
    decreases c.packetSequence - c.cursor
  {
    var now := clock(c.cursor);
    if !Stops(c, now, timeout) {
      WalkEventsLength(Turn(c, now, timeout), clock, timeout, dials);
    }
  }

  /** What the walk reports about number k. */
  lemma {:induction false} WalkEventAt(c: State, clock: Clock, timeout: nat, dials: int -> Dialling, k: int)
    requires Ordered(c) && c.cursor <= k < Walk(c, clock, timeout).cursor
    ensures var events := WalkEvents(c, clock, timeout, dials);
            && k - c.cursor < |events|
            && events[k - c.cursor] == if k in c.pending
                                       then Redial.Dropped(dials(k).first, dials(k).second, dials(k).dialOk)
                                       else Redial.Missing
    decreases c.packetSequence - c.cursor
  {
    var now := clock(c.cursor);
    WalkEventsLength(c, clock, timeout, dials);
    if !Stops(c, now, timeout) {
      var t := Turn(c, now, timeout);
      TurnOrdered(c, now, timeout);
      if k > c.cursor {
        WalkEventAt(t, clock, timeout, dials, k);
        assert k in t.pending <==> k in c.pending;
      }
    }
  }

  /** The redial controller is told, in order, about every number the walk passed:
      a drop, with the readings taken there, exactly when the number was pending. */
  lemma WalkEventsCoverWalk(c: State, clock: Clock, timeout: nat, dials: int -> Dialling)
    requires Ordered(c)
    ensures var d, events := Walk(c, clock, timeout), WalkEvents(c, clock, timeout, dials);
            && |events| == d.cursor - c.cursor
            && forall k :: c.cursor <= k < d.cursor ==>
                 events[k - c.cursor] == if k in c.pending
                                         then Redial.Dropped(dials(k).first, dials(k).second, dials(k).dialOk)
                                         else Redial.Missing
  {
    WalkEventsLength(c, clock, timeout, dials);
    forall k | c.cursor <= k < Walk(c, clock, timeout).cursor
      ensures WalkEvents(c, clock, timeout, dials)[k - c.cursor]
              == if k in c.pending
                 then Redial.Dropped(dials(k).first, dials(k).second, dials(k).dialOk)
                 else Redial.Missing
    {
      WalkEventAt(c, clock, timeout, dials, k);
    }
  }

  // ---------------------------------------------------------------------
  // The same blocks as runs of the step system

  /** Reachable states are what the theorems above ask for. */
  lemma ReachableIsOrdered(conf: Stream, start: Micros, steps: seq<Protocol.Step>)
    ensures var s := Protocol.Exec(conf, start, steps); Ordered(s.client) && SentBy(s.client, s.now)
  {
    Protocol.InvAlways(conf, start, steps);
  }

  /** The state the step system goes on to. */
  function After(conf: Stream, s: Protocol.System, steps: seq<Protocol.Step>): Protocol.System
    decreases |steps|
  {
    if steps == [] then s else After(conf, Protocol.Next(conf, s, steps[0]), steps[1..])
  }

  lemma AfterStep(conf: Stream, s: Protocol.System, step: Protocol.Step, rest: seq<Protocol.Step>)
    ensures After(conf, s, [step] + rest) == After(conf, Protocol.Next(conf, s, step), rest)
  {
    assert ([step] + rest)[1..] == rest;
  }

  /** The sender's steps for a packet that is pending. */
  function QueuedSteps(writes: bool): seq<Protocol.Step> {
    if writes then [Protocol.WriteSucceeds] + [Protocol.CountSuccess]
    else [Protocol.WriteFails] + ([Protocol.WithdrawNumber] + [Protocol.CountFailure])
  }

  /** The sender's steps for a packet whose send time is read. */
  function StampedSteps(encodes: bool, writes: bool): seq<Protocol.Step> {
    if !encodes then [Protocol.EncodeFails]
    else [Protocol.EnqueueNumber] + QueuedSteps(writes)
  }

  lemma StampedIsARun(conf: Stream, s: Protocol.System, encodes: bool, writes: bool)
    requires s.sender.Stamped?
    ensures var last := After(conf, s, StampedSteps(encodes, writes));
            && last.client == (if !encodes then CountFailed(s.client)
                               else if writes then CountSent(Enqueue(s.client, s.sender.stamp))
                               else CountFailed(Withdraw(Enqueue(s.client, s.sender.stamp))))
            && last.sender.Ready?
  {
    if encodes {
      AfterStep(conf, s, Protocol.EnqueueNumber, QueuedSteps(writes));
      QueuedIsARun(conf, Protocol.Next(conf, s, Protocol.EnqueueNumber), writes);
    }
  }

  lemma QueuedIsARun(conf: Stream, s: Protocol.System, writes: bool)
    requires s.sender.Queued?
    ensures var last := After(conf, s, QueuedSteps(writes));
            && last.client == (if writes then CountSent(s.client) else CountFailed(Withdraw(s.client)))
            && last.sender.Ready?
  {
    if writes {
      AfterStep(conf, s, Protocol.WriteSucceeds, [Protocol.CountSuccess]);
    } else {
      AfterStep(conf, s, Protocol.WriteFails, [Protocol.WithdrawNumber] + [Protocol.CountFailure]);
      AfterStep(conf, Protocol.Next(conf, s, Protocol.WriteFails), Protocol.WithdrawNumber, [Protocol.CountFailure]);
    }
  }

  /** Sending one packet is a run of the step system's sender. */
  lemma SendOneIsARun(conf: Stream, s: Protocol.System, encodes: bool, writes: bool)
    requires s.sender.Ready?
    ensures var last := After(conf, s, [Protocol.TakeNumber] + ([Protocol.TakeStamp] + StampedSteps(encodes, writes)));
            last.client == SendOne(s.client, s.now, encodes, writes) && last.sender.Ready?
  {
    var numbered := Protocol.Next(conf, s, Protocol.TakeNumber);
    AfterStep(conf, s, Protocol.TakeNumber, [Protocol.TakeStamp] + StampedSteps(encodes, writes));
    AfterStep(conf, numbered, Protocol.TakeStamp, StampedSteps(encodes, writes));
    StampedIsARun(conf, Protocol.Next(conf, numbered, Protocol.TakeStamp), encodes, writes);
  }

  /** A turn of the sweep is a run of the step system's timeout handler, and tells
      the redial controller the same: the clock moves on to the redial code's two
      readings before the cursor does. */
  lemma TurnIsARun(conf: Stream, s: Protocol.System, d: Dialling)
    requires s.scanner.AtGuard? && s.now <= d.first <= d.second
    ensures var timeout := conf.TimeoutMicros();
            var checked := Protocol.Next(conf, Protocol.Next(conf, s, Protocol.Admit), Protocol.CheckCursor);
            if Stops(s.client, s.now, timeout) then checked == s
            else
              var later := Protocol.Next(conf, checked, Protocol.Tick(d.first));
              var moved := Protocol.Next(conf, later, Protocol.AdvanceCursor(d.second, d.dialOk));
              && moved.client == Turn(s.client, s.now, timeout)
              && moved.redial == Redial.Step(conf, s.redial, TurnEvent(s.client, s.now, timeout, d))
              && moved.scanner.AtGuard?
  {
  }
}
