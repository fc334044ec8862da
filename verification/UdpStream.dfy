/** The client stream as the code has it: an object whose fields the sender, the
    socket reader and the timeout handler update. Each method is one atomic block
    of the step system, or a loop over such blocks with nothing beside it. */
module UdpStream {
  import opened Config
  import C = Client
  import Loops
  import Pacing
  import Redial

  class UdpStream {
    const conf: Config.Stream

    var packetSequence: nat
    var pending: map<int, int>
    var packetSentVal: nat
    var packetSendFailedVal: nat
    var packetReceivedVal: nat
    var packetDroppedVal: nat
    var roundTripVal: int

    // The timeout handler's own variables
    var cursor: nat
    var startTimeout: int
    var timedoutPktCount: nat

    // The sender's own variables
    var start: Micros
    var pausePeriod: int

    ghost function View(): C.State
      reads this
    {
      C.State(packetSequence, pending, packetSentVal, packetSendFailedVal, packetReceivedVal, packetDroppedVal,
              roundTripVal, cursor)
    }

    ghost function RedialView(): Redial.State
      reads this
    {
      Redial.State(startTimeout, timedoutPktCount)
    }

    ghost function PacerView(): Pacing.Pacer
      reads this
    {
      Pacing.Pacer(packetSequence, pausePeriod)
    }

    ghost predicate Valid()
      reads this
    {
      Loops.Ordered(View())
    }

    constructor (conf: Config.Stream, start: Micros)
      ensures Valid() && this.conf == conf && this.start == start
      ensures View() == C.FRESH && RedialView() == Redial.IDLE && PacerView() == Pacing.Pacer(0, 0)
    {
      this.conf, this.start := conf, start;
      packetSequence, pending := 0, map[];
      packetSentVal, packetSendFailedVal, packetReceivedVal, packetDroppedVal, roundTripVal := 0, 0, 0, 0, 0;
      cursor, startTimeout, timedoutPktCount, pausePeriod := 1, 0, 0, 0;
    }

    /** One packet of the sender. */
    method SendPacket(stamp: int, encodes: bool, writes: bool)
      modifies this`packetSequence, this`pending, this`packetSentVal, this`packetSendFailedVal
      ensures View() == Loops.SendOne(old(View()), stamp, encodes, writes)
      ensures !(encodes && writes) && old(packetSequence) + 1 !in old(pending) ==> pending == old(pending)
    {
      packetSequence := packetSequence + 1;
      if !encodes {
        packetSendFailedVal := packetSendFailedVal + 1;
        return;
      }
      pending := pending[packetSequence := stamp];
      if !writes {
        pending := pending - {packetSequence};
        packetSendFailedVal := packetSendFailedVal + 1;
        return;
      }
      packetSentVal := packetSentVal + 1;
    }

    /** The body of the send loop: the next number, with its send time and outcome. */
    method SendNext(targetSeq: int, clock: Loops.Clock, encodes: int -> bool, writes: int -> bool)
      requires packetSequence < targetSeq
      modifies this`packetSequence, this`pending, this`packetSentVal, this`packetSendFailedVal
      ensures packetSequence == old(packetSequence) + 1
      ensures Loops.SendUntil(View(), targetSeq, clock, encodes, writes)
              == old(Loops.SendUntil(View(), targetSeq, clock, encodes, writes))
    {
      var next := packetSequence + 1;
      Loops.BurstTurn(View(), targetSeq, clock, encodes, writes);
      SendPacket(clock(next), encodes(next), writes(next));
    }

    /** Sends one packet after another up to a target. The clock gives the send time
        of each number, the other two functions how its sending goes. */
    method SendUntil(targetSeq: int, clock: Loops.Clock, encodes: int -> bool, writes: int -> bool)
      modifies this`packetSequence, this`pending, this`packetSentVal, this`packetSendFailedVal
      ensures View() == Loops.SendUntil(old(View()), targetSeq, clock, encodes, writes)
    {
      ghost var last := Loops.SendUntil(View(), targetSeq, clock, encodes, writes);
      while packetSequence < targetSeq
        invariant Loops.SendUntil(View(), targetSeq, clock, encodes, writes) == last
      {
        SendNext(targetSeq, clock, encodes, writes);
      }
    }

    /** The burst of a wake-up: sends everything due at time now. */
    method SendBurst(now: int, clock: Loops.Clock, encodes: int -> bool, writes: int -> bool)
      requires Valid() && Loops.NeverBackwards(clock) && Loops.SentBy(View(), clock(packetSequence))
      modifies this`packetSequence, this`pending, this`packetSentVal, this`packetSendFailedVal
      ensures Valid()
      ensures PacerView() == Pacing.Step(start, conf.sendRate, old(PacerView()), Pacing.Wake(now))
      ensures View() == Loops.SendUntil(old(View()), packetSequence, clock, encodes, writes)
    {
      var targetSeq := Pacing.Target(now - start - pausePeriod, conf.sendRate);
      Loops.BurstOrdered(View(), targetSeq, clock, encodes, writes);
      SendUntil(targetSeq, clock, encodes, writes);
    }

    /** The sequence number the sender should have reached at time now. */
    ghost function Due(now: int): int
      reads this
    {
      Pacing.Target(now - start - pausePeriod, conf.sendRate)
    }

    /** A suspended sender sleeps and measures how long: what is due when it wakes is
        what was due when it went to sleep. */
    method Pause(before: int, after: int)
      modifies this`pausePeriod
      ensures PacerView() == Pacing.Step(start, conf.sendRate, old(PacerView()), Pacing.Suspend(before, after))
      ensures Due(after) == old(Due(before))
    {
      pausePeriod := pausePeriod + (after - before);
    }

    /** One reply, under the mutex. */
    method ReadReply(reply: C.Packet, now: int) returns (counted: bool)
      requires Valid()
      modifies this`pending, this`packetReceivedVal, this`roundTripVal
      ensures Valid()
      ensures View() == C.Receive(old(View()), reply, now)
      ensures counted == C.Accepts(old(View()), reply)
      ensures counted <==> reply.number != -1 && reply.number in old(pending)
      ensures counted ==>
                && pending == old(pending) - {reply.number}
                && packetReceivedVal == old(packetReceivedVal) + 1
                && roundTripVal == old(roundTripVal) + (now - reply.sendTimeStamp)
      ensures !counted ==> View() == old(View())
    {
      if reply.number == C.TEST_NUMBER || reply.number !in pending {
        return false;
      }
      roundTripVal := roundTripVal + (now - reply.sendTimeStamp);
      packetReceivedVal := packetReceivedVal + 1;
      pending := pending - {reply.number};
      counted := true;
    }

    /** What the timeout handler does about redialling after a drop. */
    method AfterDrop(first: Micros, second: Micros, dialOk: bool) returns (dialled: bool)
      modifies this`startTimeout, this`timedoutPktCount
      ensures RedialView() == Redial.Step(conf, old(RedialView()), Redial.Dropped(first, second, dialOk))
      ensures dialled == Redial.Attempts(conf, old(RedialView()), Redial.Dropped(first, second, dialOk))
      ensures var since := if old(startTimeout) == 0 then first else old(startTimeout);
              var drops := old(timedoutPktCount) + if old(startTimeout) == -1 then 1 else 0;
              dialled <==>
                conf.isDomainName && ((since > 0 && second - since > conf.redialTimeout * 1_000_000)
                                      || drops > conf.packetTimeout * conf.sendRate)
      ensures dialled ==> timedoutPktCount == 0 && startTimeout == if dialOk then -1 else 0
    {
      if startTimeout == 0 {
        startTimeout := first;
      } else if startTimeout == -1 {
        timedoutPktCount := timedoutPktCount + 1;
      }
      dialled := conf.isDomainName &&
                 ((startTimeout > 0 && second - startTimeout > conf.RedialMicros())
                  || timedoutPktCount > conf.RedialThreshold());
      if dialled {
        startTimeout := if dialOk then -1 else 0;
        timedoutPktCount := 0;
      }
    }

    /** One turn of the sweep: the number at the cursor is dropped when overdue,
        passed when it is no longer pending, and left alone otherwise. After a drop
        the redial code reads the clock again. */
    method TurnAtCursor(now: int, timeout: nat, d: Loops.Dialling) returns (verdict: C.Verdict)
      requires cursor < packetSequence
      modifies this`cursor, this`pending, this`packetDroppedVal, this`startTimeout, this`timedoutPktCount
      ensures verdict == C.Check(old(View()), now, timeout)
      ensures View() == if verdict == C.Young then old(View()) else Loops.Turn(old(View()), now, timeout)
      ensures RedialView() == if verdict == C.Young then old(RedialView())
                              else Redial.Step(conf, old(RedialView()),
                                               Loops.TurnEvent(old(View()), now, timeout, d))
    {
      if cursor in pending {
        if now - pending[cursor] > timeout {
          packetDroppedVal := packetDroppedVal + 1;
          pending := pending - {cursor};
          cursor := cursor + 1;
          var _ := AfterDrop(d.first, d.second, d.dialOk);
          return C.Overdue;
        }
        return C.Young;
      }
      if timedoutPktCount > 0 {
        timedoutPktCount := 0;
      }
      cursor := cursor + 1;
      return C.Settled;
    }

    /** A sweep of the timeout handler. The clock gives the reading taken at each
        cursor position, the other function what the redial code meets there. */
    method Sweep(clock: Loops.Clock, timeout: nat, dials: int -> Loops.Dialling)
      modifies this`cursor, this`pending, this`packetDroppedVal, this`startTimeout, this`timedoutPktCount
      ensures View() == Loops.Walk(old(View()), clock, timeout)
      ensures RedialView() == Loops.WalkRedial(conf, old(View()), old(RedialView()), clock, timeout, dials)
    {
      while cursor < packetSequence
        invariant Loops.Walk(View(), clock, timeout) == Loops.Walk(old(View()), clock, timeout)
        invariant Loops.WalkRedial(conf, View(), RedialView(), clock, timeout, dials)
                  == Loops.WalkRedial(conf, old(View()), old(RedialView()), clock, timeout, dials)
        decreases packetSequence - cursor
      {
        var verdict := TurnAtCursor(clock(cursor), timeout, dials(cursor));
        if verdict == C.Young || (verdict == C.Settled && cursor == packetSequence) {
          break;
        }
      }
    }
  }
}
