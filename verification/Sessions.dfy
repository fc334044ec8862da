/** What the echo server counts: one session per client address, and the server
    wide counters for missing and late packets. */
module Sessions {
  import opened Config
  import Sets

  const IDLE_TIMEOUT_SECONDS := 60

  datatype Session = Session(lastSeen: int, arrivedMaxSeq: nat)

  datatype Table = Table(clients: map<string, Session>, activeStreams: int, missing: int, late: int) {

    /** The highest sequence number seen from a client in its current session. */
    function MaxSeq(ip: string): nat {
      if ip in clients then clients[ip].arrivedMaxSeq else 0
    }

    /** A packet is in order when it raises its session's maximum. */
    predicate InOrder(ip: string, number: int) {
      number > MaxSeq(ip)
    }

    /** The bookkeeping for one received packet. */
    function Handle(ip: string, number: int, now: int): Table {
      var known := if ip in clients then this else this.(activeStreams := activeStreams + 1);
      if InOrder(ip, number) then
        known.(clients := clients[ip := Session(now, number)],
                missing := missing + (number - MaxSeq(ip) - 1))
      else
        known.(clients := clients[ip := Session(now, MaxSeq(ip))], late := late + 1)
    }

    predicate Idle(ip: string, sampled: int)
      requires ip in clients
    {
      sampled > clients[ip].lastSeen + SecToMicroSec(IDLE_TIMEOUT_SECONDS)
    }

    /** The table after an eviction pass over every session. */
    function EvictIdle(sampled: int): Table {
      var kept := map ip | ip in clients && !Idle(ip, sampled) :: clients[ip];
      Table(kept, activeStreams - (|clients| - |kept|), missing, late)
    }
  }

  /** A packet from a client whose highest number was m (0 for an unknown client): a
      higher number is in order and adds the numbers skipped to the missing ones, any
      other is late; the client is seen now, and the other clients stay as they are. */
  lemma HandleEffect(t: Table, ip: string, number: int, now: int)
    ensures var t' := t.Handle(ip, number, now);
            var m := if ip in t.clients then t.clients[ip].arrivedMaxSeq else 0;
            && t'.clients == t.clients[ip := Session(now, if number > m then number else m)]
            && t'.missing == t.missing + (if number > m then number - m - 1 else 0)
            && t'.late == t.late + (if number > m then 0 else 1)
            && t'.activeStreams == t.activeStreams + (if ip in t.clients then 0 else 1)
  {
  }

  /** A pass keeps the sessions seen within the last 60 seconds, and lowers the gauge
      once for each of the others. */
  lemma EvictIdleEffect(t: Table, sampled: int)
    ensures var t' := t.EvictIdle(sampled);
            && (forall ip :: ip in t'.clients <==>
                  ip in t.clients && sampled <= t.clients[ip].lastSeen + 60_000_000)
            && (forall ip :: ip in t'.clients ==> t'.clients[ip] == t.clients[ip])
            && t.activeStreams - t'.activeStreams == |t.clients| - |t'.clients|
            && t'.missing == t.missing && t'.late == t.late
  {
  }

  /** Opening a session first makes no difference to what handling a packet does. */
  lemma OpenThenHandle(t: Table, ip: string, number: int, now: int)
    requires ip !in t.clients
    ensures t.(clients := t.clients[ip := Session(0, 0)], activeStreams := t.activeStreams + 1).Handle(ip, number, now)
            == t.Handle(ip, number, now)
  {
    var next := Session(now, if number > 0 then number else 0);
    assert t.clients[ip := Session(0, 0)][ip := next] == t.clients[ip := next];
  }

  const EMPTY := Table(map[], 0, 0, 0)

  // ---------------------------------------------------------------------
  // One client, no eviction: the gap theorem

  datatype Arrival = Arrival(number: int, at: int)

  /** The table after a single client's packets, in order of arrival. */
  function Replay(ip: string, xs: seq<Arrival>): Table {
    if xs == [] then EMPTY
    else Replay(ip, xs[..|xs| - 1]).Handle(ip, xs[|xs| - 1].number, xs[|xs| - 1].at)
  }

  function Numbers(xs: seq<Arrival>): set<int> {
    set x | x in xs :: x.number
  }

  function Positive(xs: seq<Arrival>): set<int> {
    set x | x in xs && x.number > 0 :: x.number
  }

  /** Arrivals that bring no new sequence number: repetitions, and packets
      numbered below 1 such as the test packets. */
  function Surplus(xs: seq<Arrival>): int {
    |xs| - |Positive(xs)|
  }

  lemma ReplayExtends(ip: string, xs: seq<Arrival>, x: Arrival)
    ensures Replay(ip, xs + [x]) == Replay(ip, xs).Handle(ip, x.number, x.at)
    ensures Numbers(xs + [x]) == Numbers(xs) + {x.number}
  {
    assert (xs + [x])[..|xs|] == xs;
    assert forall y :: y in xs + [x] <==> y in xs || y == x;
    assert x in xs + [x];
  }

  /** What a session table says about the arrivals that made it. */
  predicate Shape(t: Table, ip: string, xs: seq<Arrival>) {
    && t.clients.Keys == (if xs == [] then {} else {ip})
    && (t.MaxSeq(ip) > 0 ==> t.MaxSeq(ip) in Numbers(xs))
    && (forall k :: k in Numbers(xs) ==> k <= t.MaxSeq(ip))
    && t.missing - t.late == t.MaxSeq(ip) - |xs|
    && t.missing >= 0 && 0 <= t.late <= |xs|
    && t.activeStreams == |t.clients|
  }

  lemma ShapeStep(t: Table, ip: string, xs: seq<Arrival>, x: Arrival)
    requires Shape(t, ip, xs) && Numbers(xs + [x]) == Numbers(xs) + {x.number}
    ensures Shape(t.Handle(ip, x.number, x.at), ip, xs + [x])
  {
    var t' := t.Handle(ip, x.number, x.at);
    assert t'.clients.Keys == {ip};
    assert |t.clients.Keys| == |t.clients| && |t'.clients.Keys| == |t'.clients|;
  }

  lemma {:induction false} ReplayShape(ip: string, xs: seq<Arrival>)
    ensures Shape(Replay(ip, xs), ip, xs)
  {
    if xs != [] {
      var k := |xs| - 1;
      ReplayShape(ip, xs[..k]);
      ReplayExtends(ip, xs[..k], xs[k]);
      ShapeStep(Replay(ip, xs[..k]), ip, xs[..k], xs[k]);
      assert xs[..k] + [xs[k]] == xs;
    }
  }

  /** Arrival i brought no number above all those before it. */
  predicate LateAt(xs: seq<Arrival>, i: nat)
    requires i < |xs|
  {
    xs[i].number <= 0 || exists j :: 0 <= j < i && xs[j].number >= xs[i].number
  }

  function LateArrivals(xs: seq<Arrival>): set<int> {
    set i | 0 <= i < |xs| && LateAt(xs, i)
  }

  lemma LateArrivalsStep(xs: seq<Arrival>, x: Arrival)
    ensures LateArrivals(xs + [x]) == LateArrivals(xs) + if LateAt(xs + [x], |xs|) then {|xs|} else {}
  {
    forall i | 0 <= i < |xs|
      ensures LateAt(xs + [x], i) <==> LateAt(xs, i)
    {
      forall j | 0 <= j < i
        ensures (xs + [x])[j] == xs[j]
      {
      }
    }
  }

  lemma LateArrivalsSize(xs: seq<Arrival>, x: Arrival)
    ensures |LateArrivals(xs + [x])| == |LateArrivals(xs)| + if LateAt(xs + [x], |xs|) then 1 else 0
  {
    LateArrivalsStep(xs, x);
    assert |xs| !in LateArrivals(xs);
  }

  /** Being above the session's maximum is being above all numbers before. */
  lemma LateWhenNotHigher(ip: string, xs: seq<Arrival>, x: Arrival)
    requires Shape(Replay(ip, xs), ip, xs)
    ensures LateAt(xs + [x], |xs|) <==> x.number <= Replay(ip, xs).MaxSeq(ip)
  {
    var m := Replay(ip, xs).MaxSeq(ip);
    forall j | 0 <= j < |xs|
      ensures (xs + [x])[j] == xs[j] && xs[j].number <= m
    {
      assert xs[j].number in Numbers(xs);
    }
    if x.number <= m && x.number > 0 {
      assert m in Numbers(xs);
      var y :| y in xs && y.number == m;
      var j :| 0 <= j < |xs| && xs[j] == y;
      assert (xs + [x])[j].number >= x.number;
    }
  }

  lemma {:induction false} LateCounted(ip: string, xs: seq<Arrival>)
    ensures Replay(ip, xs).late == |LateArrivals(xs)|
  {
    if xs == [] {
      assert LateArrivals(xs) == {};
    } else {
      var before, x := xs[..|xs| - 1], xs[|xs| - 1];
      LateCounted(ip, before);
      ReplayShape(ip, before);
      LateArrivalsSize(before, x);
      LateWhenNotHigher(ip, before, x);
      assert before + [x] == xs;
    }
  }

  /** Which arrivals count as late, and what the missing ones come to: late are those
      not above all before them; and the highest number is the missing ones and the
      arrivals that are not late. The session bears the time of the last arrival. */
  lemma LateAndMissing(ip: string, xs: seq<Arrival>)
    ensures var t := Replay(ip, xs);
            && t.late == |LateArrivals(xs)|
            && t.missing == t.MaxSeq(ip) - (|xs| - |LateArrivals(xs)|)
            && (xs != [] ==> ip in t.clients && t.clients[ip].lastSeen == xs[|xs| - 1].at)
  {
    LateCounted(ip, xs);
    ReplayShape(ip, xs);
  }

  /** An arrival adds to the surplus unless it brings a new positive number. */
  lemma SurplusStep(xs: seq<Arrival>)
    requires xs != []
    ensures var k := |xs| - 1;
            Surplus(xs) == Surplus(xs[..k]) +
                           if xs[k].number > 0 && xs[k].number !in Numbers(xs[..k]) then 0 else 1
  {
    var k := |xs| - 1;
    var before, n := xs[..k], xs[k].number;
    assert forall x :: x in xs <==> x in before || x == xs[k];
    assert Positive(xs) == Positive(before) + if n > 0 then {n} else {};
    if n > 0 && n in Numbers(before) {
      assert n in Positive(before) && Positive(xs) == Positive(before);
    } else if n > 0 {
      assert n !in Positive(before);
    }
  }

  lemma {:induction false} SurplusNonNegative(xs: seq<Arrival>)
    ensures Surplus(xs) >= 0
  {
    if xs != [] {
      SurplusNonNegative(xs[..|xs| - 1]);
      SurplusStep(xs);
    }
  }

  /** Whatever arrives, in whatever order: missing minus late is the number of
      gaps below the highest number seen, less the surplus arrivals. */
  lemma GapTheorem(ip: string, xs: seq<Arrival>)
    ensures var t := Replay(ip, xs);
            t.missing - t.late == |Sets.Range(t.MaxSeq(ip)) - Numbers(xs)| - Surplus(xs)
  {
    ReplayShape(ip, xs);
    var m := Replay(ip, xs).MaxSeq(ip);
    Sets.RangeSize(m);
    forall k | k in Positive(xs)
      ensures k in Sets.Range(m)
    {
      assert k in Numbers(xs);
    }
    Sets.SubsetSize(Positive(xs), Sets.Range(m));
    assert Sets.Range(m) - Numbers(xs) == Sets.Range(m) - Positive(xs);
  }

  /** When no packet is repeated and none is a test packet, the counters give the
      number of gaps exactly. */
  lemma DistinctArrivalsCountGaps(ip: string, xs: seq<Arrival>)
    requires forall i, j :: 0 <= i < j < |xs| ==> xs[i].number != xs[j].number
    requires forall i :: 0 <= i < |xs| ==> xs[i].number > 0
    ensures var t := Replay(ip, xs);
            t.missing - t.late == |Sets.Range(t.MaxSeq(ip)) - Numbers(xs)|
  {
    GapTheorem(ip, xs);
    DistinctHaveNoSurplus(xs);
  }

  lemma {:induction false} DistinctHaveNoSurplus(xs: seq<Arrival>)
    requires forall i, j :: 0 <= i < j < |xs| ==> xs[i].number != xs[j].number
    requires forall i :: 0 <= i < |xs| ==> xs[i].number > 0
    ensures Surplus(xs) == 0
  {
    if xs != [] {
      var k := |xs| - 1;
      DistinctHaveNoSurplus(xs[..k]);
      SurplusStep(xs);
      assert xs[k].number !in Numbers(xs[..k]);
    }
  }

  // ---------------------------------------------------------------------
  // Many clients, with the idle sweeper running beside the reader

  /** A packet handled by the reader, as the log of a run remembers it. */
  datatype Logged = Logged(ip: string, at: int, inOrder: bool)

  /** A session the sweeper evicted: its last state, the time the sweeper had
      sampled, and how many packets had been handled by then. */
  datatype Retired = Retired(ip: string, session: Session, sampled: int, handled: nat)

  /** The sweeper samples the clock, takes the mutex, visits the sessions one by
      one, and lowers the gauge after each deletion. */
  datatype Sweeper =
    | Resting
    | Sampled(at: int)
    | Visiting(at: int, remaining: set<string>)
    | Deleted(at: int, remaining: set<string>)

  datatype Server = Server(now: int, table: Table, sweeper: Sweeper, log: seq<Logged>, retired: seq<Retired>) {
    predicate MutexFree() {
      sweeper.Resting? || sweeper.Sampled?
    }
  }

  datatype Step =
    | Tick(t: int)
    | Receive(ip: string, number: int)
    | Sample
    | Lock
    | Visit(ip: string)
    | LowerGauge
    | Unlock

  /** One atomic step; a step that is not enabled changes nothing. */
  function Next(s: Server, step: Step): Server {
    match step
    case Tick(t) =>
      if t >= s.now then s.(now := t) else s
    case Receive(ip, number) =>
      if s.MutexFree() then
        s.(table := s.table.Handle(ip, number, s.now),
           log := s.log + [Logged(ip, s.now, s.table.InOrder(ip, number))])
      else s
    case Sample =>
      if s.sweeper.Resting? then s.(sweeper := Sampled(s.now)) else s
    case Lock =>
      if s.sweeper.Sampled? then s.(sweeper := Visiting(s.sweeper.at, s.table.clients.Keys)) else s
    case Visit(ip) =>
      if s.sweeper.Visiting? && ip in s.sweeper.remaining && ip in s.table.clients then
        var rest := s.sweeper.remaining - {ip};
        if s.table.Idle(ip, s.sweeper.at) then
          s.(table := s.table.(clients := s.table.clients - {ip}),
             sweeper := Deleted(s.sweeper.at, rest),
             retired := s.retired + [Retired(ip, s.table.clients[ip], s.sweeper.at, |s.log|)])
        else s.(sweeper := Visiting(s.sweeper.at, rest))
      else s
    case LowerGauge =>
      if s.sweeper.Deleted? then
        s.(table := s.table.(activeStreams := s.table.activeStreams - 1),
           sweeper := Visiting(s.sweeper.at, s.sweeper.remaining))
      else s
    case Unlock =>
      if s.sweeper.Visiting? && s.sweeper.remaining == {} then s.(sweeper := Resting) else s
  }

  function Exec(start: int, steps: seq<Step>): Server {
    if steps == [] then Server(start, EMPTY, Resting, [], [])
    else Next(Exec(start, steps[..|steps| - 1]), steps[|steps| - 1])
  }

  /** Sum of the session maxima. */
  ghost function SumMax(clients: map<string, Session>): int {
    if clients == map[] then 0
    else
      var ip :| ip in clients;
      clients[ip].arrivedMaxSeq + SumMax(clients - {ip})
  }

  lemma {:induction false} SumMaxRemove(clients: map<string, Session>, ip: string)
    requires ip in clients
    ensures SumMax(clients) == clients[ip].arrivedMaxSeq + SumMax(clients - {ip})
    decreases |clients|
  {
    var chosen :| chosen in clients && SumMax(clients) == clients[chosen].arrivedMaxSeq + SumMax(clients - {chosen});
    if chosen != ip {
      SumMaxRemove(clients - {chosen}, ip);
      SumMaxRemove(clients - {ip}, chosen);
      assert clients - {chosen} - {ip} == clients - {ip} - {chosen};
    }
  }

  lemma SumMaxUpdate(clients: map<string, Session>, ip: string, session: Session)
    ensures SumMax(clients[ip := session]) ==
            SumMax(clients) - (if ip in clients then clients[ip].arrivedMaxSeq else 0) + session.arrivedMaxSeq
  {
    SumMaxRemove(clients[ip := session], ip);
    if ip in clients {
      SumMaxRemove(clients, ip);
      assert clients[ip := session] - {ip} == clients - {ip};
    } else {
      assert clients[ip := session] - {ip} == clients;
    }
  }

  function SumRetired(retired: seq<Retired>): int {
    if retired == [] then 0
    else SumRetired(retired[..|retired| - 1]) + retired[|retired| - 1].session.arrivedMaxSeq
  }

  function CountInOrder(log: seq<Logged>): nat {
    if log == [] then 0
    else CountInOrder(log[..|log| - 1]) + if log[|log| - 1].inOrder then 1 else 0
  }

  /** The last packet the log holds from a client was handled at this time. */
  ghost predicate LastHandledAt(log: seq<Logged>, ip: string, at: int) {
    && (exists i :: 0 <= i < |log| && log[i].ip == ip && log[i].at == at)
    && forall i :: 0 <= i < |log| && log[i].ip == ip ==> log[i].at <= at
  }

  ghost predicate Balanced(s: Server) {
    && SumMax(s.table.clients) + SumRetired(s.retired) == s.table.missing + CountInOrder(s.log)
    && |s.log| == CountInOrder(s.log) + s.table.late
  }

  ghost predicate GaugeMatches(s: Server) {
    s.table.activeStreams == |s.table.clients| + if s.sweeper.Deleted? then 1 else 0
  }

  ghost predicate TimesMatch(s: Server) {
    && (forall i :: 0 <= i < |s.log| ==> s.log[i].at <= s.now)
    && (forall ip :: ip in s.table.clients ==> LastHandledAt(s.log, ip, s.table.clients[ip].lastSeen))
  }

  /** No evicted client had been heard of within the idle timeout. */
  ghost predicate EvictedWereIdle(s: Server) {
    forall r :: r in s.retired ==>
      && r.handled <= |s.log|
      && forall i :: 0 <= i < r.handled && s.log[i].ip == r.ip ==>
           s.log[i].at + SecToMicroSec(IDLE_TIMEOUT_SECONDS) < r.sampled
  }

  ghost predicate Inv(s: Server) {
    Balanced(s) && GaugeMatches(s) && TimesMatch(s) && EvictedWereIdle(s)
  }

  lemma BalanceAfterReceive(s: Server, ip: string, number: int)
    requires Balanced(s) && s.MutexFree()
    ensures Balanced(Next(s, Receive(ip, number)))
  {
    var s' := Next(s, Receive(ip, number));
    assert s'.log[..|s.log|] == s.log;
    SumMaxUpdate(s.table.clients, ip, s'.table.clients[ip]);
  }

  lemma TimesAfterReceive(s: Server, ip: string, number: int)
    requires TimesMatch(s) && EvictedWereIdle(s) && s.MutexFree()
    ensures var s' := Next(s, Receive(ip, number)); TimesMatch(s') && EvictedWereIdle(s')
  {
    var s' := Next(s, Receive(ip, number));
    forall c | c in s'.table.clients
      ensures LastHandledAt(s'.log, c, s'.table.clients[c].lastSeen)
    {
      if c == ip {
        assert s'.log[|s.log|].ip == ip && s'.log[|s.log|].at == s.now;
      } else {
        var i :| 0 <= i < |s.log| && s.log[i].ip == c && s.log[i].at == s.table.clients[c].lastSeen;
        assert s'.log[i] == s.log[i];
      }
    }
  }

  lemma BalanceAfterVisit(s: Server, ip: string)
    requires Balanced(s)
    ensures Balanced(Next(s, Visit(ip)))
  {
    var s' := Next(s, Visit(ip));
    if s'.retired != s.retired {
      assert s'.retired[..|s.retired|] == s.retired;
      SumMaxRemove(s.table.clients, ip);
    }
  }

  lemma GaugeAfterVisit(s: Server, ip: string)
    requires GaugeMatches(s)
    ensures GaugeMatches(Next(s, Visit(ip)))
  {
    var clients := s.table.clients;
    assert ip in clients ==> clients.Keys == (clients - {ip}).Keys + {ip};
    assert |clients| == |clients.Keys| && |clients - {ip}| == |(clients - {ip}).Keys|;
  }

  lemma TimesAfterVisit(s: Server, ip: string)
    requires TimesMatch(s) && EvictedWereIdle(s)
    ensures var s' := Next(s, Visit(ip)); TimesMatch(s') && EvictedWereIdle(s')
  {
    var s' := Next(s, Visit(ip));
    if s'.retired != s.retired {
      assert LastHandledAt(s.log, ip, s.table.clients[ip].lastSeen);
    }
  }

  lemma ReceiveKeepsInv(s: Server, ip: string, number: int)
    requires Inv(s)
    ensures Inv(Next(s, Receive(ip, number)))
  {
    if s.MutexFree() {
      BalanceAfterReceive(s, ip, number);
      TimesAfterReceive(s, ip, number);
      assert Next(s, Receive(ip, number)).table.clients.Keys == s.table.clients.Keys + {ip};
    }
  }

  lemma OtherStepKeepsInv(s: Server, step: Step)
    requires Inv(s) && !step.Receive? && !step.Visit?
    ensures Inv(Next(s, step))
  {
  }

  lemma NextKeepsInv(s: Server, step: Step)
    requires Inv(s)
    ensures Inv(Next(s, step))
  {
    match step
    case Receive(ip, number) => ReceiveKeepsInv(s, ip, number);
    case Visit(ip) =>
      BalanceAfterVisit(s, ip);
      GaugeAfterVisit(s, ip);
      TimesAfterVisit(s, ip);
    case _ => OtherStepKeepsInv(s, step);
  }

  lemma {:induction false} InvAlways(start: int, steps: seq<Step>)
    ensures Inv(Exec(start, steps))
  {
    if steps != [] {
      InvAlways(start, steps[..|steps| - 1]);
      NextKeepsInv(Exec(start, steps[..|steps| - 1]), steps[|steps| - 1]);
    } else {
      assert SumMax(map[]) == 0;
    }
  }

  /** Over every interleaving of the reader and the sweeper: the maxima of live
      and evicted sessions add up to the missing packets plus the in-order ones;
      every packet handled was in order or late; the gauge is the number of
      sessions whenever the mutex is free; and no client heard of within the
      idle timeout of the sampled time was evicted. */
  lemma SessionConservation(start: int, steps: seq<Step>)
    ensures var s := Exec(start, steps);
            && SumMax(s.table.clients) + SumRetired(s.retired) == s.table.missing + CountInOrder(s.log)
            && |s.log| == CountInOrder(s.log) + s.table.late
            && (s.MutexFree() ==> s.table.activeStreams == |s.table.clients|)
            && (forall r :: r in s.retired ==>
                  && r.handled <= |s.log|
                  && forall i :: 0 <= i < r.handled && s.log[i].ip == r.ip ==>
                       s.log[i].at + 60_000_000 < r.sampled)
  {
    InvAlways(start, steps);
  }

  /** While the mutex is free the reader handles any packet, and the log remembers when
      and whether its number was above the client's highest; otherwise it waits. */
  lemma ReaderHandles(start: int, steps: seq<Step>, ip: string, number: int)
    ensures var s, s' := Exec(start, steps), Exec(start, steps + [Receive(ip, number)]);
            var m := if ip in s.table.clients then s.table.clients[ip].arrivedMaxSeq else 0;
            if s.sweeper.Resting? || s.sweeper.Sampled? then
              && s'.log == s.log + [Logged(ip, s.now, number > m)]
              && s'.table == s.table.Handle(ip, number, s.now)
              && s'.now == s.now && s'.sweeper == s.sweeper && s'.retired == s.retired
            else s' == s
  {
    assert (steps + [Receive(ip, number)])[..|steps|] == steps;
  }

  /** What a visit does to a session and to the record of evictions. */
  lemma SweeperVisits(start: int, steps: seq<Step>, ip: string)
    requires Exec(start, steps).sweeper.Visiting?
    requires ip in Exec(start, steps).sweeper.remaining && ip in Exec(start, steps).table.clients
    ensures var s, s' := Exec(start, steps), Exec(start, steps + [Visit(ip)]);
            var at, rest, session := s.sweeper.at, s.sweeper.remaining - {ip}, s.table.clients[ip];
            if at > session.lastSeen + 60_000_000 then
              && s'.sweeper == Deleted(at, rest)
              && s'.table.clients == s.table.clients - {ip}
              && s'.retired == s.retired + [Retired(ip, session, at, |s.log|)]
            else s' == s.(sweeper := Visiting(at, rest))
  {
    assert (steps + [Visit(ip)])[..|steps|] == steps;
  }

  /** The clock may go on to any later time, and goes back to none. */
  lemma ClockGoesOn(start: int, steps: seq<Step>, t: int)
    ensures var s := Exec(start, steps);
            Exec(start, steps + [Tick(t)]) == s.(now := if t >= s.now then t else s.now)
  {
    assert (steps + [Tick(t)])[..|steps|] == steps;
  }

  // ---------------------------------------------------------------------
  // A whole pass of the sweeper

  function RunFrom(s: Server, steps: seq<Step>): Server
    decreases steps
  {
    if steps == [] then s else RunFrom(Next(s, steps[0]), steps[1..])
  }

  lemma {:induction false} SampleStays(s: Server, at: int, steps: seq<Step>)
    requires s.sweeper == Sampled(at)
    requires forall i :: 0 <= i < |steps| ==> !steps[i].Lock?
    ensures RunFrom(s, steps).sweeper == Sampled(at)
    decreases steps
  {
    if steps != [] {
      SampleStays(Next(s, steps[0]), at, steps[1..]);
    }
  }

  /** A resting sweeper samples the clock, and whatever runs before it gets the mutex,
      it then has that time and every session there is to visit. */
  lemma PassBegins(s: Server, between: seq<Step>)
    requires s.sweeper.Resting?
    requires forall i :: 0 <= i < |between| ==> !between[i].Lock?
    ensures var t := RunFrom(Next(s, Sample), between);
            Next(t, Lock) == t.(sweeper := Visiting(s.now, t.table.clients.Keys))
  {
    SampleStays(Next(s, Sample), s.now, between);
  }

  /** What a pass that began with table `all` has done so far with client ip: it is
      still there unless it was visited and found idle. */
  predicate VisitedOrLeft(s: Server, all: Table, ip: string)
    requires s.sweeper.Visiting? || s.sweeper.Deleted?
  {
    && (ip in s.table.clients <==>
          ip in all.clients && (ip in s.sweeper.remaining || !all.Idle(ip, s.sweeper.at)))
    && (ip in s.table.clients ==> s.table.clients[ip] == all.clients[ip])
  }

  /** A pass that began at time `at` with table `all` is under way. */
  ghost predicate MidPass(s: Server, all: Table, at: int) {
    && (s.sweeper.Visiting? || s.sweeper.Deleted?) && s.sweeper.at == at
    && (forall ip :: VisitedOrLeft(s, all, ip))
    && s.table.activeStreams - |s.table.clients| - (if s.sweeper.Deleted? then 1 else 0)
       == all.activeStreams - |all.clients|
    && s.table.missing == all.missing && s.table.late == all.late
  }

  lemma RemovalSize(clients: map<string, Session>, ip: string)
    requires ip in clients
    ensures |clients - {ip}| == |clients| - 1
  {
    assert clients.Keys == (clients - {ip}).Keys + {ip};
    assert |clients| == |clients.Keys| && |clients - {ip}| == |(clients - {ip}).Keys|;
  }

  /** Whatever else runs, the pass goes on until the sweeper unlocks: the reader is
      shut out by the mutex. */
  lemma MidPassStep(s: Server, all: Table, at: int, step: Step)
    requires MidPass(s, all, at) && !step.Unlock?
    ensures MidPass(Next(s, step), all, at)
  {
    var s' := Next(s, step);
    if step.Visit? && s'.table != s.table {
      RemovalSize(s.table.clients, step.ip);
    }
    forall ip
      ensures VisitedOrLeft(s', all, ip)
    {
      assert VisitedOrLeft(s, all, ip);
      if step.Visit? {
        assert VisitedOrLeft(s, all, step.ip);
      }
    }
  }

  lemma {:induction false} MidPassRun(s: Server, all: Table, at: int, steps: seq<Step>)
    requires MidPass(s, all, at)
    requires forall i :: 0 <= i < |steps| ==> !steps[i].Unlock?
    ensures MidPass(RunFrom(s, steps), all, at)
    decreases steps
  {
    if steps != [] {
      MidPassStep(s, all, at, steps[0]);
      MidPassRun(Next(s, steps[0]), all, at, steps[1..]);
    }
  }

  /** A whole pass of the sweeper under the mutex. In whatever order it visits the
      sessions, and whatever else is tried meanwhile, when none is left to visit it
      has evicted exactly the idle ones and lowered the gauge by their number. */
  lemma PassEvictsIdle(s: Server, steps: seq<Step>)
    requires s.sweeper.Visiting? && s.sweeper.remaining == s.table.clients.Keys
    requires forall i :: 0 <= i < |steps| ==> !steps[i].Unlock?
    requires RunFrom(s, steps).sweeper.Visiting? && RunFrom(s, steps).sweeper.remaining == {}
    ensures RunFrom(s, steps).table == s.table.EvictIdle(s.sweeper.at)
    ensures forall ip :: ip in RunFrom(s, steps).table.clients <==>
              ip in s.table.clients && s.sweeper.at <= s.table.clients[ip].lastSeen + 60_000_000
  {
    EvictIdleEffect(s.table, s.sweeper.at);
    var s', all, at := RunFrom(s, steps), s.table, s.sweeper.at;
    assert MidPass(s, all, at);
    MidPassRun(s, all, at, steps);
    forall ip
      ensures ip in s'.table.clients <==> ip in all.EvictIdle(at).clients
      ensures ip in s'.table.clients ==> s'.table.clients[ip] == all.EvictIdle(at).clients[ip]
    {
      assert VisitedOrLeft(s', all, ip);
    }
    assert s'.table.clients == all.EvictIdle(at).clients;
  }

  /** With nothing left to visit the sweeper gives the mutex back. */
  lemma PassEnds(s: Server)
    requires s.sweeper.Visiting? && s.sweeper.remaining == {}
    ensures Next(s, Unlock) == s.(sweeper := Resting)
  {
  }

  /** A pass can always be brought to its end. */
  lemma {:induction false} PassCanEnd(s: Server) returns (steps: seq<Step>)
    requires s.sweeper.Visiting? && s.sweeper.remaining <= s.table.clients.Keys
    ensures forall i :: 0 <= i < |steps| ==> !steps[i].Unlock?
    ensures RunFrom(s, steps).sweeper == Visiting(s.sweeper.at, {})
    decreases s.sweeper.remaining
  {
    if s.sweeper.remaining == {} {
      steps := [];
    } else {
      var ip :| ip in s.sweeper.remaining;
      var s1 := Next(s, Visit(ip));
      var s2 := Next(s1, LowerGauge);
      var rest := PassCanEnd(s2);
      steps := [Visit(ip)] + ([LowerGauge] + rest);
      assert steps[1..] == [LowerGauge] + rest && ([LowerGauge] + rest)[1..] == rest;
      assert RunFrom(s1, [LowerGauge] + rest) == RunFrom(s2, rest);
    }
  }
}
