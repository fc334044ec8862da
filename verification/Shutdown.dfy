/** Tearing a stream down while its three goroutines run: the stop flag, the wait
    group, and the stream's entries in the registry. */
module Shutdown {
  import opened Metrics

  datatype Who = Sender | Reader | TimeoutHandler

  /** Where a goroutine stands: not yet running, about to test the stop flag, inside
      its loop, past its call of Done with something left to do, or gone. */
  datatype Point = Spawned | AtTest | InLoop | Leaving | Exited

  /** A goroutine, and how often it has called Done. */
  datatype Goroutine = Goroutine(point: Point, dones: nat)

  /** How far a call of TearDownConnection has come. */
  datatype Teardown = NotCalled | Unlisted | Stopping | Closed | Waited

  datatype System = System(
    stop: bool,
    waiting: int,
    sender: Goroutine,
    reader: Goroutine,
    handler: Goroutine,
    teardown: Teardown,
    returned: bool,
    notStartedListed: bool,
    notStarted: nat,
    registry: set<Id>,
    streamMetrics: set<Id>,
    server: Server
  ) {
    function Get(who: Who): Goroutine {
      match who
      case Sender => sender
      case Reader => reader
      case TimeoutHandler => handler
    }

    function Set(who: Who, g: Goroutine): System {
      match who
      case Sender => this.(sender := g)
      case Reader => this.(reader := g)
      case TimeoutHandler => this.(handler := g)
    }

    function Move(who: Who, p: Point): System {
      Set(who, Get(who).(point := p))
    }

    /** The goroutine calls Done, and then stands at p. */
    function Done(who: Who, p: Point): System {
      Set(who, Goroutine(p, Get(who).dones + 1)).(waiting := waiting - 1)
    }
  }

  datatype Step =
    | Start(who: Who)
    | SenderSetupFails
    | CountNotStarted
    | TestStop(who: Who)
    | Retest
    | Continue(who: Who)
    | ReplyFrom(server: Server)
    | Unlist
    | SetStop
    | CloseSocket
    | WaitReturns
    | DeRegister

  /** A stream after a successful set-up; the registry also holds other collectors. */
  function Init(stream: string, others: set<Id>): System {
    var g := Goroutine(Spawned, 0);
    System(false, 3, g, g, g, NotCalled, false, true, 0,
           others + Six(stream, NO_SERVER), Six(stream, NO_SERVER), NO_SERVER)
  }

  /** One atomic step; a step that is not enabled changes nothing. */
  function Next(stream: string, s: System, step: Step): System {
    match step
    case Start(who) => if s.Get(who).point.Spawned? then s.Move(who, AtTest) else s
    case SenderSetupFails => if s.sender.point.Spawned? then s.Done(Sender, Leaving) else s
    case CountNotStarted =>
      if s.sender.point.Leaving? then s.Move(Sender, Exited).(notStarted := s.notStarted + 1) else s
    case TestStop(who) =>
      if !s.Get(who).point.AtTest? then s
      else if s.stop then s.Done(who, Exited) else s.Move(who, InLoop)
    case Retest => if s.handler.point.InLoop? && s.stop then s.Done(TimeoutHandler, Exited) else s
    case Continue(who) => if s.Get(who).point.InLoop? then s.Move(who, AtTest) else s
    case ReplyFrom(server) =>
      if !s.reader.point.InLoop? then s
      else if server == s.server then s.Move(Reader, AtTest)
      else s.Move(Reader, AtTest).(server := server,
                                   registry := s.registry - s.streamMetrics + Six(stream, server),
                                   streamMetrics := s.streamMetrics + Six(stream, server))
    case Unlist => if s.teardown.NotCalled? then s.(teardown := Unlisted, notStartedListed := false) else s
    case SetStop => if s.teardown.Unlisted? then s.(teardown := Stopping, stop := true) else s
    case CloseSocket => if s.teardown.Stopping? then s.(teardown := Closed) else s
    case WaitReturns => if s.teardown.Closed? && s.waiting == 0 then s.(teardown := Waited) else s
    case DeRegister =>
      if s.teardown.Waited? then s.(teardown := NotCalled, returned := true, registry := s.registry - s.streamMetrics)
      else s
  }

  function Exec(stream: string, others: set<Id>, steps: seq<Step>): System {
    if steps == [] then Init(stream, others)
    else Next(stream, Exec(stream, others, steps[..|steps| - 1]), steps[|steps| - 1])
  }

  /** Is the goroutine's call of Done still to come? */
  predicate CallsDone(g: Goroutine) {
    !g.point.Leaving? && !g.point.Exited?
  }

  function Running(g: Goroutine): int {
    if CallsDone(g) then 1 else 0
  }

  predicate DoneOnce(g: Goroutine) {
    g.dones == 1 - Running(g)
  }

  predicate WaitGroup(s: System) {
    && DoneOnce(s.sender) && DoneOnce(s.reader) && DoneOnce(s.handler)
    && !s.reader.point.Leaving? && !s.handler.point.Leaving?
    && s.notStarted <= (if s.sender.point.Exited? then 1 else 0)
    && s.waiting == Running(s.sender) + Running(s.reader) + Running(s.handler)
    && (s.teardown.Waited? || s.returned ==> s.waiting == 0)
    && (s.stop <==> s.teardown.Stopping? || s.teardown.Closed? || s.teardown.Waited? || s.returned)
    && (s.notStartedListed <==> s.teardown.NotCalled? && !s.returned)
    && (s.reader.point.Exited? || s.handler.point.Exited? ==> s.stop)
    && (s.sender.point.Exited? && s.notStarted == 0 ==> s.stop)
  }

  /** The part of the registry that belongs to the stream. */
  function Own(stream: string, registry: set<Id>): set<Id> {
    set id | id in registry && id.stream == stream
  }

  predicate Entries(stream: string, others: set<Id>, s: System) {
    && (forall id :: id in s.streamMetrics ==> id.stream == stream)
    && Six(stream, s.server) <= s.streamMetrics
    && s.registry == others + if s.returned then {} else Six(stream, s.server)
  }

  lemma {:induction false} Always(stream: string, others: set<Id>, steps: seq<Step>)
    requires forall id :: id in others ==> id.stream != stream
    ensures var s := Exec(stream, others, steps); WaitGroup(s) && Entries(stream, others, s)
  {
    if steps != [] {
      Always(stream, others, steps[..|steps| - 1]);
      var s, step := Exec(stream, others, steps[..|steps| - 1]), steps[|steps| - 1];
      NextKeepsEntries(stream, others, s, step);
      NextKeepsWaitGroup(stream, s, step);
    }
  }

  /** Moving on, or calling Done and returning, keeps the wait group right as long
      as the goroutine has not called it before. */
  lemma GoroutineKeepsWaitGroup(s: System, who: Who, p: Point)
    requires WaitGroup(s) && CallsDone(s.Get(who)) && !p.Exited? && !p.Leaving?
    ensures WaitGroup(s.Move(who, p)) && (s.stop ==> WaitGroup(s.Done(who, Exited)))
    ensures who == Sender ==> WaitGroup(s.Done(who, Leaving))
  {
    match who
    case Sender =>
    case Reader =>
    case TimeoutHandler =>
  }

  lemma NextKeepsWaitGroup(stream: string, s: System, step: Step)
    requires WaitGroup(s)
    ensures WaitGroup(Next(stream, s, step))
  {
    match step
    case Start(who) => if s.Get(who).point.Spawned? { GoroutineKeepsWaitGroup(s, who, AtTest); }
    case SenderSetupFails => if s.sender.point.Spawned? { GoroutineKeepsWaitGroup(s, Sender, AtTest); }
    case TestStop(who) => if s.Get(who).point.AtTest? { GoroutineKeepsWaitGroup(s, who, InLoop); }
    case Retest => if s.handler.point.InLoop? { GoroutineKeepsWaitGroup(s, TimeoutHandler, InLoop); }
    case Continue(who) => if s.Get(who).point.InLoop? { GoroutineKeepsWaitGroup(s, who, AtTest); }
    case ReplyFrom(_) => if s.reader.point.InLoop? { GoroutineKeepsWaitGroup(s, Reader, AtTest); }
    case _ =>
  }

  /** Only a reply and the last step of the teardown touch the stream's entries. */
  lemma OtherStepsKeepEntries(stream: string, s: System, step: Step)
    requires !step.ReplyFrom? && !step.DeRegister?
    ensures var s' := Next(stream, s, step);
            && s'.registry == s.registry && s'.streamMetrics == s.streamMetrics
            && s'.server == s.server && s'.returned == s.returned
  {
  }

  /** Taking out everything the stream ever registered leaves the others. */
  lemma OthersRemain(others: set<Id>, mine: set<Id>, current: set<Id>)
    requires others !! mine && current <= mine
    ensures others + current - mine == others
  {
  }

  lemma NextKeepsEntries(stream: string, others: set<Id>, s: System, step: Step)
    requires forall id :: id in others ==> id.stream != stream
    requires WaitGroup(s) && Entries(stream, others, s)
    ensures Entries(stream, others, Next(stream, s, step))
  {
    if step.ReplyFrom? || step.DeRegister? {
      OthersRemain(others, s.streamMetrics, if s.returned then {} else Six(stream, s.server));
    } else {
      OtherStepsKeepEntries(stream, s, step);
    }
  }

  /** Shutdown safety, in every interleaving. The wait group counts the goroutines
      that have not called Done, so it never goes negative; each calls Done exactly
      once, on whatever path it leaves, and but for a sender whose set-up failed only
      after the stop flag is set; and when TearDownConnection has returned, the
      reader and the timeout handler are gone, and so is the sender, unless its set-up
      failed and it has yet to count that; nothing of the stream is left in the
      registry, and what other streams registered is untouched: also when the reader
      registered the metrics again after the stop flag was set. */
  lemma ShutdownSafety(stream: string, others: set<Id>, steps: seq<Step>)
    requires forall id :: id in others ==> id.stream != stream
    ensures var s := Exec(stream, others, steps);
            && s.waiting == Running(s.sender) + Running(s.reader) + Running(s.handler)
            && DoneOnce(s.sender) && DoneOnce(s.reader) && DoneOnce(s.handler)
            && (s.notStartedListed <==> s.teardown.NotCalled? && !s.returned)
            && (s.reader.point.Exited? || s.handler.point.Exited? ==> s.stop)
            && (s.sender.point.Exited? && s.notStarted == 0 ==> s.stop)
            && (s.returned ==>
                  && (s.sender.point.Exited? || (s.sender.point.Leaving? && s.notStarted == 0))
                  && s.reader.point.Exited? && s.handler.point.Exited?
                  && s.registry == others && !s.notStartedListed)
  {
    Always(stream, others, steps);
  }

  /** The server whose reply the reader handled last. */
  function LastServer(stream: string, others: set<Id>, steps: seq<Step>): Server {
    if steps == [] then NO_SERVER
    else
      var prefix, step := steps[..|steps| - 1], steps[|steps| - 1];
      if step.ReplyFrom? && Exec(stream, others, prefix).reader.point.InLoop? then step.server
      else LastServer(stream, others, prefix)
  }

  lemma {:induction false} LabelsFollowReplies(stream: string, others: set<Id>, steps: seq<Step>)
    ensures Exec(stream, others, steps).server == LastServer(stream, others, steps)
  {
    if steps != [] {
      LabelsFollowReplies(stream, others, steps[..|steps| - 1]);
    }
  }

  /** The state the stream goes on to. */
  function After(stream: string, s: System, steps: seq<Step>): System
    decreases |steps|
  {
    if steps == [] then s else After(stream, Next(stream, s, steps[0]), steps[1..])
  }

  lemma {:induction false} AfterIsExec(stream: string, others: set<Id>, steps: seq<Step>, more: seq<Step>)
    ensures Exec(stream, others, steps + more) == After(stream, Exec(stream, others, steps), more)
    decreases |more|
  {
    if more == [] {
      assert steps + more == steps;
    } else {
      assert (steps + [more[0]])[..|steps|] == steps;
      assert steps + more == steps + [more[0]] + more[1..];
      AfterIsExec(stream, others, steps + [more[0]], more[1..]);
    }
  }

  /** Once the stop flag is set a goroutine can run to its call of Done, wherever it
      stands. */
  function Finish(who: Who): seq<Step> {
    [Start(who), Continue(who), TestStop(who)]
  }

  lemma Finishes(stream: string, s: System, who: Who)
    requires s.stop
    ensures var s' := After(stream, s, Finish(who));
            && !CallsDone(s'.Get(who))
            && (forall w :: w != who ==> s'.Get(w) == s.Get(w))
            && s'.stop && s'.teardown == s.teardown && s'.returned == s.returned
            && s'.waiting == s.waiting - Running(s.Get(who))
  {
    var s1 := Next(stream, s, Start(who));
    var s2 := Next(stream, s1, Continue(who));
    assert Finish(who)[1..] == [Continue(who), TestStop(who)] && Finish(who)[1..][1..] == [TestStop(who)];
    assert After(stream, s2, [TestStop(who)]) == Next(stream, s2, TestStop(who));
  }

  /** Until then it goes round its loop. */
  lemma GoesRound(stream: string, s: System, who: Who)
    requires !s.stop && CallsDone(s.Get(who))
    ensures var s' := After(stream, s, Finish(who));
            s'.Get(who) == s.Get(who).(point := InLoop) && s' == s.Set(who, s'.Get(who))
  {
    var s1 := Next(stream, s, Start(who));
    var s2 := Next(stream, s1, Continue(who));
    assert Finish(who)[1..] == [Continue(who), TestStop(who)] && Finish(who)[1..][1..] == [TestStop(who)];
    assert After(stream, s2, [TestStop(who)]) == Next(stream, s2, TestStop(who));
  }

  /** The timeout handler also tests the flag within its loop. */
  lemma InnerTest(stream: string, s: System)
    requires s.handler.point.InLoop? && s.stop
    ensures Next(stream, s, Retest)
            == s.(handler := Goroutine(Exited, s.handler.dones + 1), waiting := s.waiting - 1)
  {
  }

  /** A sender whose set-up fails calls Done first and counts that afterwards. */
  lemma SetupFails(stream: string, s: System)
    requires s.sender.point.Spawned?
    ensures var s1 := Next(stream, s, SenderSetupFails);
            && s1 == s.(sender := Goroutine(Leaving, s.sender.dones + 1), waiting := s.waiting - 1)
            && Next(stream, s1, CountNotStarted)
               == s1.(sender := s1.sender.(point := Exited), notStarted := s.notStarted + 1)
  {
  }

  lemma AfterConcat(stream: string, s: System, xs: seq<Step>, ys: seq<Step>)
    ensures After(stream, s, xs + ys) == After(stream, After(stream, s, xs), ys)
    decreases |xs|
  {
    if xs == [] {
      assert xs + ys == ys;
    } else {
      assert (xs + ys)[1..] == xs[1..] + ys;
      AfterConcat(stream, Next(stream, s, xs[0]), xs[1..], ys);
    }
  }

  function FinishAll(): seq<Step> {
    Finish(Sender) + (Finish(Reader) + Finish(TimeoutHandler))
  }

  lemma AllFinish(stream: string, s: System)
    requires s.stop && s.waiting == Running(s.sender) + Running(s.reader) + Running(s.handler)
    ensures var s' := After(stream, s, FinishAll()); s'.waiting == 0 && s'.teardown == s.teardown
  {
    Finishes(stream, s, Sender);
    var s1 := After(stream, s, Finish(Sender));
    Finishes(stream, s1, Reader);
    var s2 := After(stream, s1, Finish(Reader));
    Finishes(stream, s2, TimeoutHandler);
    AfterConcat(stream, s1, Finish(Reader), Finish(TimeoutHandler));
    AfterConcat(stream, s, Finish(Sender), Finish(Reader) + Finish(TimeoutHandler));
    assert s1.Get(Reader) == s.reader && s1.Get(TimeoutHandler) == s.handler;
    assert s2.Get(TimeoutHandler) == s.handler;
  }

  /** As long as the stop flag is not set the reader can come to handle a reply, and the
      labels are then those of its server. */
  lemma ReplyCanArrive(stream: string, others: set<Id>, steps: seq<Step>, from: Server) returns (more: seq<Step>)
    requires forall id :: id in others ==> id.stream != stream
    requires !Exec(stream, others, steps).stop
    ensures Exec(stream, others, steps + more).server == from
    ensures !Exec(stream, others, steps + more).returned
  {
    Always(stream, others, steps);
    var s := Exec(stream, others, steps);
    GoesRound(stream, s, Reader);
    var s1 := After(stream, s, Finish(Reader));
    more := Finish(Reader) + [ReplyFrom(from)];
    AfterConcat(stream, s, Finish(Reader), [ReplyFrom(from)]);
    assert After(stream, s1, [ReplyFrom(from)]) == Next(stream, s1, ReplyFrom(from));
    AfterIsExec(stream, others, steps, more);
  }

  /** TearDownConnection up to the wait, and its end. */
  const TEARDOWN_BEGINS := [Unlist, SetStop, CloseSocket]
  const TEARDOWN_ENDS := [WaitReturns, DeRegister]

  lemma TeardownBegins(stream: string, s: System)
    requires s.teardown.Closed? || s.teardown.Waited? ==> s.stop
    requires s.teardown.Stopping? ==> s.stop
    ensures var s' := After(stream, s, TEARDOWN_BEGINS);
            && s'.stop && (s'.teardown.Closed? || s'.teardown.Waited?)
            && s'.sender == s.sender && s'.reader == s.reader && s'.handler == s.handler
            && s'.waiting == s.waiting
  {
    var s1 := Next(stream, s, Unlist);
    var s2 := Next(stream, s1, SetStop);
    assert TEARDOWN_BEGINS[1..] == [SetStop, CloseSocket] && [SetStop, CloseSocket][1..] == [CloseSocket];
    assert After(stream, s, TEARDOWN_BEGINS) == After(stream, s1, [SetStop, CloseSocket]);
    assert After(stream, s1, [SetStop, CloseSocket]) == After(stream, s2, [CloseSocket]);
    assert After(stream, s2, [CloseSocket]) == Next(stream, s2, CloseSocket);
  }

  lemma TeardownEnds(stream: string, s: System)
    requires (s.teardown.Closed? && s.waiting == 0) || s.teardown.Waited?
    ensures After(stream, s, TEARDOWN_ENDS).returned && After(stream, s, TEARDOWN_ENDS).teardown.NotCalled?
  {
    var s1 := Next(stream, s, WaitReturns);
    assert TEARDOWN_ENDS[1..] == [DeRegister];
    assert After(stream, s1, [DeRegister]) == Next(stream, s1, DeRegister);
  }

  /** From wherever a stream stands, TearDownConnection can return: the three goroutines
      can run to their end beside it. */
  lemma TeardownCanReturn(stream: string, others: set<Id>, steps: seq<Step>) returns (more: seq<Step>)
    requires forall id :: id in others ==> id.stream != stream
    ensures Exec(stream, others, steps + more).returned
    ensures Exec(stream, others, steps + more).teardown.NotCalled?
  {
    Always(stream, others, steps);
    var s := Exec(stream, others, steps);
    var s1 := After(stream, s, TEARDOWN_BEGINS);
    TeardownBegins(stream, s);
    AllFinish(stream, s1);
    TeardownEnds(stream, After(stream, s1, FinishAll()));
    more := TEARDOWN_BEGINS + (FinishAll() + TEARDOWN_ENDS);
    AfterConcat(stream, s1, FinishAll(), TEARDOWN_ENDS);
    AfterConcat(stream, s, TEARDOWN_BEGINS, FinishAll() + TEARDOWN_ENDS);
    AfterIsExec(stream, others, steps, more);
  }

  /** Until then, the registry holds exactly the stream's six collectors, under the
      labels of the server that answered last. */
  lemma SixUntilTornDown(stream: string, others: set<Id>, steps: seq<Step>)
    requires forall id :: id in others ==> id.stream != stream
    ensures var s := Exec(stream, others, steps);
            !s.returned ==>
              Own(stream, s.registry) == Six(stream, s.server) && s.registry - Own(stream, s.registry) == others
  {
    Always(stream, others, steps);
  }
}
