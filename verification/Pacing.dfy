/** How the sender decides how many packets are due: an absolute target computed
    from the active time, in 64-bit integer arithmetic. */
module Pacing {
  import opened Common
  import opened Config

  const TWO_63 := 0x8000_0000_0000_0000
  const TWO_64 := 0x1_0000_0000_0000_0000

  /** Two's-complement wrap-around of a 64-bit signed product. */
  function Wrap64(x: int): int {
    var m := x % TWO_64;
    if m < TWO_63 then m else m - TWO_64
  }

  /** Integer division that truncates toward zero. */
  function TruncDiv(a: int, b: int): int
    requires b > 0
  {
    if a >= 0 then a / b else -((-a) / b)
  }

  /** Wrapping around keeps a value within 64 bits, and changes it by a multiple of 2^64
      only. */
  lemma WrapsAround(x: int)
    ensures -0x8000_0000_0000_0000 <= Wrap64(x) < 0x8000_0000_0000_0000
    ensures (x - Wrap64(x)) % 0x1_0000_0000_0000_0000 == 0
  {
  }

  /** The quotient times the divisor falls short of the dividend by less than the
      divisor, and on the side of zero. */
  lemma TruncatesTowardZero(a: int, b: int)
    requires b > 0
    ensures a >= 0 ==> 0 <= a - TruncDiv(a, b) * b < b
    ensures a <= 0 ==> -b < a - TruncDiv(a, b) * b <= 0
  {
  }

  /** The sequence number the sender should have reached. */
  function Target(active: int, rate: int): int {
    TruncDiv(Wrap64(active * rate), MICROS_PER_SECOND)
  }

  /** The machine arithmetic gives the mathematical floor exactly while the product
      of active time and rate fits; beyond that the target is wrong. */
  lemma TargetExactIff(active: nat, rate: nat)
    ensures Target(active, rate) == active * rate / 1_000_000 <==> active * rate < 0x8000_0000_0000_0000
  {
    ProductNonNegative(active, rate);
    var x := active * rate;
    if x >= TWO_63 {
      assert Wrap64(x) < TWO_63;
      if x < TWO_64 {
        assert Wrap64(x) < 0;
      } else {
        assert TWO_63 / MICROS_PER_SECOND < TWO_64 / MICROS_PER_SECOND;
      }
    }
  }

  /** At 500 packets a second the target turns negative after 584 years. */
  lemma TargetOverflows()
    ensures Target(18446744073709552, 500) < 0
  {
    assert 18446744073709552 * 500 == TWO_63 + 192;
  }

  lemma ProductNonNegative(a: nat, b: nat)
    ensures a * b >= 0
  {
  }

  /** The sender's counters: numbers taken, and measured suspension. */
  datatype Pacer = Pacer(packetSequence: int, pausePeriod: int)

  /** The sender wakes up and sends what is due, or sits out a suspension and
      measures it with two clock readings. */
  datatype Event =
    | Wake(now: int)
    | Suspend(before: int, after: int)

  function Step(start: int, rate: int, p: Pacer, e: Event): Pacer {
    match e
    case Wake(now) => p.(packetSequence := Max(p.packetSequence, Target(now - start - p.pausePeriod, rate)))
    case Suspend(before, after) => p.(pausePeriod := p.pausePeriod + (after - before))
  }

  function Run(start: int, rate: int, events: seq<Event>): Pacer {
    if events == [] then Pacer(0, 0)
    else Step(start, rate, Run(start, rate, events[..|events| - 1]), events[|events| - 1])
  }

  /** The last clock reading of a history. */
  function LastReading(start: int, events: seq<Event>): int {
    if events == [] then start
    else match events[|events| - 1]
         case Wake(now) => now
         case Suspend(_, after) => after
  }

  /** The clock never runs backwards along a history. */
  predicate ClockOrdered(start: int, events: seq<Event>) {
    events == [] ||
    (&& ClockOrdered(start, events[..|events| - 1])
     && match events[|events| - 1]
        case Wake(now) => LastReading(start, events[..|events| - 1]) <= now
        case Suspend(before, after) => LastReading(start, events[..|events| - 1]) <= before <= after)
  }

  function TotalPause(events: seq<Event>): int {
    if events == [] then 0
    else TotalPause(events[..|events| - 1]) +
         match events[|events| - 1]
         case Wake(_) => 0
         case Suspend(before, after) => after - before
  }

  /** Active time since the start at the last reading of a history. */
  function Active(start: int, events: seq<Event>): int {
    LastReading(start, events) - start - TotalPause(events)
  }

  lemma FloorMonotone(a: int, b: int, rate: nat)
    requires a <= b
    ensures a * rate <= b * rate
    ensures a * rate / MICROS_PER_SECOND <= b * rate / MICROS_PER_SECOND
  {
    assert b * rate - a * rate == (b - a) * rate;
    ProductNonNegative(b - a, rate);
  }

  lemma {:induction false} ActiveBounds(start: int, rate: nat, events: seq<Event>)
    requires ClockOrdered(start, events)
    requires Active(start, events) * rate < TWO_63
    ensures Run(start, rate, events).pausePeriod == TotalPause(events) >= 0
    ensures Active(start, events) >= 0
    ensures 0 <= Run(start, rate, events).packetSequence <= Active(start, events) * rate / MICROS_PER_SECOND
    ensures events != [] && events[|events| - 1].Wake? ==>
              Run(start, rate, events).packetSequence == Active(start, events) * rate / MICROS_PER_SECOND
  {
    if events == [] {
      assert Active(start, events) == 0;
    } else {
      var prefix := events[..|events| - 1];
      ActiveGrows(start, events);
      FloorMonotone(Active(start, prefix), Active(start, events), rate);
      ActiveBounds(start, rate, prefix);
      TargetExactIff(Active(start, events), rate);
    }
  }

  lemma ActiveGrows(start: int, events: seq<Event>)
    requires events != [] && ClockOrdered(start, events)
    ensures Active(start, events[..|events| - 1]) <= Active(start, events)
  {
  }

  /** No drift, and no dependence on the wake-ups before: after a wake-up the
      number of packets taken is the floor of active time times rate. */
  lemma NoDrift(start: int, rate: nat, events: seq<Event>, now: int)
    requires ClockOrdered(start, events + [Wake(now)])
    requires (now - start - TotalPause(events)) * rate < TWO_63
    ensures Run(start, rate, events + [Wake(now)]).packetSequence
            == (now - start - TotalPause(events)) * rate / MICROS_PER_SECOND
  {
    assert (events + [Wake(now)])[..|events|] == events;
    ActiveBounds(start, rate, events + [Wake(now)]);
  }

  /** A history with its suspensions cut out, and each wake-up moved forward by the
      suspensions before it. */
  function CutOut(events: seq<Event>): (cut: seq<Event>)
    ensures TotalPause(cut) == 0
  {
    if events == [] then []
    else
      var before := events[..|events| - 1];
      match events[|events| - 1]
      case Wake(now) =>
        var cut := CutOut(before) + [Wake(now - TotalPause(before))];
        assert cut[..|cut| - 1] == CutOut(before);
        cut
      case Suspend(_, _) => CutOut(before)
  }

  /** Suspended time never counts, whatever the rate and even where the target
      overflows: with the suspensions cut out, the sender takes the same numbers. */
  lemma {:induction false} SuspensionsDoNotCount(start: int, rate: int, events: seq<Event>)
    ensures var p, q := Run(start, rate, events), Run(start, rate, CutOut(events));
            && p.packetSequence == q.packetSequence
            && p.pausePeriod == TotalPause(events) && q.pausePeriod == 0
  {
    if events != [] {
      var before := events[..|events| - 1];
      SuspensionsDoNotCount(start, rate, before);
      if events[|events| - 1].Wake? {
        assert CutOut(events)[..|CutOut(events)| - 1] == CutOut(before);
      }
    }
  }

  /** Two floors differ by the floor or the ceiling of the difference. */
  lemma FloorDifference(x: int, y: int)
    requires y <= x
    ensures var d := x / MICROS_PER_SECOND - y / MICROS_PER_SECOND;
            (x - y) / MICROS_PER_SECOND <= d <= (x - y) / MICROS_PER_SECOND + 1
  {
  }

  lemma {:induction false} TotalPauseConcat(xs: seq<Event>, ys: seq<Event>)
    ensures TotalPause(xs + ys) == TotalPause(xs) + TotalPause(ys)
  {
    if ys == [] {
      assert xs + ys == xs;
    } else {
      TotalPauseConcat(xs, ys[..|ys| - 1]);
      assert (xs + ys)[..|xs + ys| - 1] == xs + ys[..|ys| - 1];
    }
  }

  lemma {:induction false} ClockOrderedPrefix(start: int, xs: seq<Event>, ys: seq<Event>)
    requires ClockOrdered(start, xs + ys)
    ensures ClockOrdered(start, xs)
    ensures Active(start, xs) <= Active(start, xs + ys)
  {
    if ys == [] {
      assert xs + ys == xs;
    } else {
      ActiveGrows(start, xs + ys);
      assert (xs + ys)[..|xs + ys| - 1] == xs + ys[..|ys| - 1];
      ClockOrderedPrefix(start, xs, ys[..|ys| - 1]);
    }
  }

  /** Active time only advances with the readings of the part of a history. */
  lemma ActiveBetween(start: int, events: seq<Event>, first: int, between: seq<Event>, second: int)
    ensures var xs, ys := events + [Wake(first)], between + [Wake(second)];
            && Active(start, xs + ys) - Active(start, xs) == second - first - TotalPause(between)
            && xs[|xs| - 1] == Wake(first) && (xs + ys)[|xs + ys| - 1] == Wake(second)
  {
    var xs, ys := events + [Wake(first)], between + [Wake(second)];
    TotalPauseConcat(xs, ys);
    assert ys[..|ys| - 1] == between;
  }

  /** Between any two wake-ups, with anything in between, the sender takes the
      floor or the ceiling of rate times the active time between them; suspended
      time is not caught up on. */
  lemma BetweenWakes(start: int, rate: nat, events: seq<Event>, first: int, between: seq<Event>, second: int)
    requires var all := events + [Wake(first)] + (between + [Wake(second)]);
             ClockOrdered(start, all) && Active(start, all) * rate < TWO_63
    ensures var active := second - first - TotalPause(between);
            var taken := Run(start, rate, events + [Wake(first)] + (between + [Wake(second)])).packetSequence
                         - Run(start, rate, events + [Wake(first)]).packetSequence;
            && active >= 0
            && active * rate / MICROS_PER_SECOND <= taken <= active * rate / MICROS_PER_SECOND + 1
            && (active == 0 ==> taken == 0)
  {
    var xs, ys := events + [Wake(first)], between + [Wake(second)];
    ClockOrderedPrefix(start, xs, ys);
    ActiveBetween(start, events, first, between, second);
    var a, b := Active(start, xs), Active(start, xs + ys);
    FloorMonotone(a, b, rate);
    ActiveBounds(start, rate, xs);
    ActiveBounds(start, rate, xs + ys);
    FloorOfActive(a, b, rate);
  }

  lemma FloorOfActive(a: nat, b: nat, rate: nat)
    requires a <= b
    ensures var taken := b * rate / MICROS_PER_SECOND - a * rate / MICROS_PER_SECOND;
            && (b - a) * rate / MICROS_PER_SECOND <= taken <= (b - a) * rate / MICROS_PER_SECOND + 1
            && (a == b ==> taken == 0)
  {
    assert (b - a) * rate == b * rate - a * rate;
    FloorMonotone(a, b, rate);
    FloorDifference(b * rate, a * rate);
  }
}
