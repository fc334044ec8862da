/** The redial controller inside the timeout handler: when a stream whose
    packets keep timing out resolves and dials its destination again.

    The timeout handler settles sequence numbers one by one. Each number is
    either dropped (it was pending for too long) or missing (answered, or never
    sent); the controller sees that history and nothing else. */
module Redial {
  import opened Config

  /** startTimeout is 0 (idle), a reading of the clock (armed), or -1
      (counting, after a successful dial). */
  datatype State = State(startTimeout: int, timedoutPktCount: nat)

  const IDLE := State(0, 0)
  const COUNTING := -1

  /** How the timeout handler settled one sequence number. A drop carries the
      two clock readings the controller may take and what a dial would return. */
  datatype Settled =
    | Dropped(first: Micros, second: Micros, dialOk: bool)
    | Missing

  /** The controller's reaction to a drop before it decides on a redial. */
  function Arm(st: State, now: Micros): State {
    if st.startTimeout == 0 then st.(startTimeout := now)
    else if st.startTimeout == COUNTING then st.(timedoutPktCount := st.timedoutPktCount + 1)
    else st
  }

  predicate Due(conf: Stream, armed: State, now: Micros) {
    && conf.isDomainName
    && (|| (armed.startTimeout > 0 && now - armed.startTimeout > conf.RedialMicros())
        || armed.timedoutPktCount > conf.RedialThreshold())
  }

  /** Does the controller redial on this event? */
  predicate Attempts(conf: Stream, st: State, e: Settled) {
    e.Dropped? && Due(conf, Arm(st, e.first), e.second)
  }

  function Step(conf: Stream, st: State, e: Settled): State {
    match e
    case Missing => st.(timedoutPktCount := 0)
    case Dropped(first, _, dialOk) =>
      if Attempts(conf, st, e) then State(if dialOk then COUNTING else 0, 0)
      else Arm(st, first)
  }

  /** The controller after a history, from start-up. */
  function Run(conf: Stream, events: seq<Settled>): State {
    if events == [] then IDLE
    else Step(conf, Run(conf, events[..|events| - 1]), events[|events| - 1])
  }

  /** Event i of the history triggered a redial. */
  predicate AttemptedAt(conf: Stream, events: seq<Settled>, i: nat)
    requires i < |events|
  {
    Attempts(conf, Run(conf, events[..i]), events[i])
  }

  /** The last n events are drops, and none of them triggered a redial. */
  predicate DropRun(conf: Stream, events: seq<Settled>, n: nat) {
    && n <= |events|
    && forall i :: |events| - n <= i < |events| ==> events[i].Dropped? && !AttemptedAt(conf, events, i)
  }

  lemma RunExtends(conf: Stream, events: seq<Settled>, e: Settled)
    ensures Run(conf, events + [e]) == Step(conf, Run(conf, events), e)
  {
    assert (events + [e])[..|events|] == events;
  }

  lemma AttemptedAtPrefix(conf: Stream, events: seq<Settled>, n: nat, i: nat)
    requires i < n <= |events|
    ensures AttemptedAt(conf, events[..n], i) == AttemptedAt(conf, events, i)
  {
    assert events[..n][..i] == events[..i];
  }

  /** Peeling the last event off a run of drops. */
  lemma DropRunStep(conf: Stream, events: seq<Settled>, n: nat)
    requires events != []
    ensures DropRun(conf, events, n + 1) <==>
            var k := |events| - 1;
            events[k].Dropped? && !AttemptedAt(conf, events, k) && DropRun(conf, events[..k], n)
  {
    var k := |events| - 1;
    forall i: nat | i < k
      ensures AttemptedAt(conf, events[..k], i) == AttemptedAt(conf, events, i)
    {
      AttemptedAtPrefix(conf, events, k, i);
    }
    if DropRun(conf, events, n + 1) {
      forall i | k - n <= i < k
        ensures events[..k][i].Dropped? && !AttemptedAt(conf, events[..k], i)
      {
        assert events[i].Dropped? && !AttemptedAt(conf, events, i);
      }
    }
    if events[k].Dropped? && !AttemptedAt(conf, events, k) && DropRun(conf, events[..k], n) {
      forall i | |events| - (n + 1) <= i < |events|
        ensures events[i].Dropped? && !AttemptedAt(conf, events, i)
      {
        if i < k {
          assert events[..k][i].Dropped? && !AttemptedAt(conf, events[..k], i);
        }
      }
    }
  }

  /** Over every history: a positive counter means the controller is counting;
      the counter is the length of the longest run of drops since the last
      missing number or redial; it never exceeds packetTimeout * sendRate. */
  lemma {:induction false} CounterIsDropRun(conf: Stream, events: seq<Settled>)
    ensures var st := Run(conf, events);
            && st.startTimeout >= COUNTING
            && (st.timedoutPktCount > 0 ==> st.startTimeout == COUNTING)
            && st.timedoutPktCount <= |events|
            && (conf.isDomainName ==> st.timedoutPktCount <= conf.packetTimeout * conf.sendRate)
            && (st.startTimeout == COUNTING ==>
                  forall n: nat :: DropRun(conf, events, n) <==> n <= st.timedoutPktCount)
  {
    if events != [] {
      var k := |events| - 1;
      CounterIsDropRun(conf, events[..k]);
      var before, st := Run(conf, events[..k]), Run(conf, events);
      if st.startTimeout == COUNTING {
        forall n: nat
          ensures DropRun(conf, events, n) <==> n <= st.timedoutPktCount
        {
          if n > 0 {
            DropRunStep(conf, events, n - 1);
            assert events[k].Dropped? && !AttemptedAt(conf, events, k) ==> before.startTimeout == COUNTING;
          }
        }
      }
    }
  }

  /** While counting, a stream to a domain name redials on an event exactly when
      that event is a drop preceded by packetTimeout * sendRate uninterrupted
      drops: a fresh attempt takes one drop more than the threshold. */
  lemma NextAttempt(conf: Stream, events: seq<Settled>, e: Settled)
    requires Run(conf, events).startTimeout == COUNTING
    ensures Attempts(conf, Run(conf, events), e) <==>
            conf.isDomainName && e.Dropped? && DropRun(conf, events, conf.packetTimeout * conf.sendRate)
  {
    CounterIsDropRun(conf, events);
    var st := Run(conf, events);
    assert DropRun(conf, events, conf.RedialThreshold()) <==> conf.RedialThreshold() <= st.timedoutPktCount;
  }

  /** The last redial of the history is event i, and its dial succeeded. */
  predicate DialledAt(conf: Stream, events: seq<Settled>, i: nat) {
    && i < |events|
    && AttemptedAt(conf, events, i) && events[i].dialOk
    && forall m :: i < m < |events| ==> !AttemptedAt(conf, events, m)
  }

  /** Between a successful dial and the next redial the controller counts. */
  lemma {:induction false} StaysCounting(conf: Stream, events: seq<Settled>, i: nat, j: nat)
    requires i < j <= |events|
    requires AttemptedAt(conf, events, i) && events[i].dialOk
    requires forall m :: i < m < j ==> !AttemptedAt(conf, events, m)
    ensures Run(conf, events[..j]).startTimeout == COUNTING
    decreases j
  {
    assert events[..j][..j - 1] == events[..j - 1];
    if j > i + 1 {
      StaysCounting(conf, events, i, j - 1);
      assert !AttemptedAt(conf, events, j - 1);
    }
  }

  /** The redial that put the controller into counting mode. */
  lemma {:induction false} CountingSince(conf: Stream, events: seq<Settled>) returns (i: nat)
    requires Run(conf, events).startTimeout == COUNTING
    ensures DialledAt(conf, events, i)
  {
    var k := |events| - 1;
    if AttemptedAt(conf, events, k) {
      i := k;
    } else {
      i := CountingSince(conf, events[..k]);
      AttemptedAtPrefix(conf, events, k, i);
      forall m: nat | i < m < k
        ensures !AttemptedAt(conf, events, m)
      {
        AttemptedAtPrefix(conf, events, k, m);
      }
    }
  }

  /** The controller counts exactly while its last redial was a successful dial. */
  lemma CountingIffDialled(conf: Stream, events: seq<Settled>)
    ensures Run(conf, events).startTimeout == COUNTING <==> exists i: nat :: DialledAt(conf, events, i)
  {
    if Run(conf, events).startTimeout == COUNTING {
      var i := CountingSince(conf, events);
    }
    if i: nat :| DialledAt(conf, events, i) {
      StaysCounting(conf, events, i, |events|);
      assert events[..|events|] == events;
    }
  }

  /** After a successful dial, and until the next redial, a redial happens on an
      event exactly when the destination is a domain name and that event ends
      packetTimeout * sendRate + 1 consecutive drops, all after the dial. */
  lemma NextAttemptAfterDial(conf: Stream, events: seq<Settled>, i: nat, j: nat)
    requires i < j < |events|
    requires AttemptedAt(conf, events, i) && events[i].dialOk
    requires forall m :: i < m < j ==> !AttemptedAt(conf, events, m)
    ensures AttemptedAt(conf, events, j) <==>
            && conf.isDomainName
            && i < j - conf.packetTimeout * conf.sendRate
            && forall m :: j - conf.packetTimeout * conf.sendRate <= m <= j ==> events[m].Dropped?
  {
    var n, past := conf.RedialThreshold(), events[..j];
    StaysCounting(conf, events, i, j);
    NextAttempt(conf, past, events[j]);
    AttemptedAtPrefix(conf, events, j, i);
    if DropRun(conf, past, n) {
      assert !(j - n <= i);
      forall m | j - n <= m < j
        ensures events[m].Dropped?
      {
        assert past[m].Dropped?;
      }
    } else if i < j - n && forall m :: j - n <= m <= j ==> events[m].Dropped? {
      forall m | j - n <= m < j
        ensures past[m].Dropped? && !AttemptedAt(conf, past, m)
      {
        AttemptedAtPrefix(conf, events, j, m);
      }
    }
  }

  /** Nothing was dropped in from..to, and `from` is the start of the history or
      directly follows a redial. */
  predicate QuietSinceAttempt(conf: Stream, events: seq<Settled>, from: nat, to: nat) {
    && from <= to <= |events|
    && (from == 0 || AttemptedAt(conf, events, from - 1))
    && forall j :: from <= j < to ==> events[j].Missing?
  }

  /** Event i is the first drop since the last redial, and has armed the
      controller: no redial has followed it yet. */
  predicate FirstDropSinceAttempt(conf: Stream, events: seq<Settled>, from: nat, i: nat) {
    && i < |events|
    && QuietSinceAttempt(conf, events, from, i)
    && events[i].Dropped?
    && forall j :: i <= j < |events| ==> !AttemptedAt(conf, events, j)
  }

  lemma QuietPrefix(conf: Stream, events: seq<Settled>, n: nat, from: nat, to: nat)
    requires n <= |events| && QuietSinceAttempt(conf, events[..n], from, to)
    ensures QuietSinceAttempt(conf, events, from, to)
  {
    if from > 0 {
      AttemptedAtPrefix(conf, events, n, from - 1);
    }
    forall j | from <= j < to
      ensures events[j].Missing?
    {
      assert events[..n][j].Missing?;
    }
  }

  /** While idle, nothing was dropped since the last redial. While armed,
      startTimeout is the clock reading of the first drop since the last redial:
      answers in between do not reset it. */
  lemma {:induction false} ArmedByFirstDrop(conf: Stream, events: seq<Settled>) returns (from: nat, i: nat)
    ensures Run(conf, events).startTimeout == 0 ==> QuietSinceAttempt(conf, events, from, |events|)
    ensures Run(conf, events).startTimeout > 0 ==>
              && FirstDropSinceAttempt(conf, events, from, i)
              && events[i].first == Run(conf, events).startTimeout
  {
    from, i := 0, 0;
    if events != [] {
      var k := |events| - 1;
      var before, st := Run(conf, events[..k]), Run(conf, events);
      from, i := ArmedByFirstDrop(conf, events[..k]);
      if AttemptedAt(conf, events, k) {
        from := |events|;
      } else if before.startTimeout == 0 {
        QuietPrefix(conf, events, k, from, k);
        i := k;
      } else if before.startTimeout > 0 {
        assert st.startTimeout == before.startTimeout;
        QuietPrefix(conf, events, k, from, i);
        forall j | i <= j < |events|
          ensures !AttemptedAt(conf, events, j)
        {
          if j < k {
            AttemptedAtPrefix(conf, events, k, j);
          }
        }
      }
    }
  }

  /** While armed, a stream to a domain name redials on an event exactly when that
      event is a drop more than redialTimeout after the first drop since the last
      redial. */
  lemma ArmedAttempt(conf: Stream, events: seq<Settled>, e: Settled) returns (from: nat, i: nat)
    requires Run(conf, events).startTimeout > 0
    ensures FirstDropSinceAttempt(conf, events, from, i)
    ensures Attempts(conf, Run(conf, events), e) <==>
            conf.isDomainName && e.Dropped? && e.second - events[i].first > conf.redialTimeout * 1_000_000
  {
    from, i := ArmedByFirstDrop(conf, events);
    CounterIsDropRun(conf, events);
  }

  /** The clock never runs backwards along the history. */
  predicate ClockOrdered(events: seq<Settled>) {
    && (forall i :: 0 <= i < |events| && events[i].Dropped? ==> events[i].first <= events[i].second)
    && (forall i, j :: 0 <= i < j < |events| && events[i].Dropped? && events[j].Dropped? ==>
          events[i].second <= events[j].first)
  }

  /** No drop of the history carries a reading later than now. */
  predicate ReadBy(events: seq<Settled>, now: int) {
    forall i :: 0 <= i < |events| && events[i].Dropped? ==> events[i].second <= now
  }

  lemma ClockOrderedExtends(events: seq<Settled>, e: Settled, now: int)
    requires ClockOrdered(events) && ReadBy(events, now)
    requires e.Dropped? ==> now <= e.first <= e.second
    ensures ClockOrdered(events + [e]) && ReadBy(events + [e], if e.Dropped? then e.second else now)
  {
  }

  /** Failed dials are not retried in a tight loop: after a redial whose dial
      failed, the next redial is more than redialTimeout later. */
  lemma FailedDialBacksOff(conf: Stream, events: seq<Settled>, i: nat, j: nat)
    requires i < j < |events| && ClockOrdered(events)
    requires AttemptedAt(conf, events, i) && !events[i].dialOk
    requires AttemptedAt(conf, events, j)
    requires forall m :: i < m < j ==> !AttemptedAt(conf, events, m)
    ensures events[j].second - events[i].second > conf.redialTimeout * 1_000_000
  {
    StaysOutOfCounting(conf, events, i, j);
    CounterIsDropRun(conf, events[..j]);
    AttemptedAtPrefix(conf, events, j, i);
    var from, f := ArmedByFirstDrop(conf, events[..j]);
    if Run(conf, events[..j]).startTimeout > 0 {
      assert f > i;
      assert events[i].second <= events[f].first;
    }
  }

  /** Between a failed dial and the next redial the controller never counts. */
  lemma {:induction false} StaysOutOfCounting(conf: Stream, events: seq<Settled>, i: nat, j: nat)
    requires i < j <= |events|
    requires AttemptedAt(conf, events, i) && !events[i].dialOk
    requires forall m :: i < m < j ==> !AttemptedAt(conf, events, m)
    ensures Run(conf, events[..j]).startTimeout >= 0
    decreases j
  {
    assert events[..j][..j - 1] == events[..j - 1];
    if j > i + 1 {
      StaysOutOfCounting(conf, events, i, j - 1);
      assert !AttemptedAt(conf, events, j - 1);
    }
  }

  /** Since start-up or a failed dial before event `from`, the controller is idle
      until the first drop f and then holds that drop's clock reading. */
  lemma {:induction false} ArmedSince(conf: Stream, events: seq<Settled>, from: nat, f: nat, j: nat)
    requires from <= j <= |events| && from <= f < |events|
    requires from == 0 || (AttemptedAt(conf, events, from - 1) && !events[from - 1].dialOk)
    requires events[f].Dropped? && forall m :: from <= m < f ==> events[m].Missing?
    requires forall m :: from <= m < j ==> !AttemptedAt(conf, events, m)
    ensures Run(conf, events[..j]).startTimeout == if j <= f then 0 else events[f].first
    ensures Run(conf, events[..j]).timedoutPktCount == 0
    decreases j
  {
    if j > 0 {
      assert events[..j][..j - 1] == events[..j - 1];
      if j > from {
        ArmedSince(conf, events, from, f, j - 1);
        assert !AttemptedAt(conf, events, j - 1);
      }
    }
  }

  /** From start-up, and again after a failed dial, a redial happens on a drop
      exactly when the destination is a domain name and the drop comes more than
      redialTimeout after the first drop since. */
  lemma NextAttemptAfterFailure(conf: Stream, events: seq<Settled>, from: nat, f: nat, j: nat)
    requires from <= f <= j < |events|
    requires from == 0 || (AttemptedAt(conf, events, from - 1) && !events[from - 1].dialOk)
    requires events[f].Dropped? && forall m :: from <= m < f ==> events[m].Missing?
    requires forall m :: from <= m < j ==> !AttemptedAt(conf, events, m)
    ensures AttemptedAt(conf, events, j) <==>
            && conf.isDomainName && events[j].Dropped?
            && events[j].second - events[f].first > conf.redialTimeout * 1_000_000
  {
    ArmedSince(conf, events, from, f, j);
  }

  /** A destination given by address is never redialled, whatever is dropped. */
  lemma {:induction false} AddressNeverRedialled(conf: Stream, events: seq<Settled>)
    requires !conf.isDomainName
    ensures forall i: nat :: i < |events| ==> !AttemptedAt(conf, events, i)
    ensures Run(conf, events).timedoutPktCount == 0 <= Run(conf, events).startTimeout
    ensures Run(conf, events).startTimeout == 0 <==> forall i :: 0 <= i < |events| ==> events[i].Missing?
  {
    if events != [] {
      var k := |events| - 1;
      AddressNeverRedialled(conf, events[..k]);
      forall i: nat | i < k
        ensures AttemptedAt(conf, events, i) == AttemptedAt(conf, events[..k], i)
      {
        AttemptedAtPrefix(conf, events, k, i);
      }
      assert events == events[..k] + [events[k]];
    }
  }
}
