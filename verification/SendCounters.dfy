/** The exposed counters of sent and failed packets. Their increments run outside the
    mutex, so a re-registration can run beside the sender: it replaces the collector,
    and then starts the new one from the amount counted so far. This is one such
    counter, its counted total, and the two goroutines that touch them. */
module SendCounters {

  /** The sender increments the exposed counter, then the counted total. */
  datatype Sender = AtRest | Incremented

  /** The reader replaces the collector, then restores the amount. */
  datatype Registration = Done | Replaced

  /** The two values, where the two goroutines stand, and how often the sender has
      incremented so far, which no step reads. */
  datatype State = State(exposed: int, counted: int, sender: Sender, registration: Registration, increments: nat) {

    /** An increment that has not been counted yet. */
    function Open(): int {
      if sender.Incremented? then 1 else 0
    }

    /** By how much the exposed counter is ahead, apart from an open increment. */
    function Drift(): int {
      exposed - (counted + Open())
    }
  }

  const REGISTERED := State(0, 0, AtRest, Done, 0)

  datatype Step = Increment | Count | Replace | Restore

  /** One atomic step; a step that is not enabled changes nothing. */
  function Next(s: State, step: Step): State {
    match step
    case Increment =>
      if s.sender.AtRest?
      then s.(exposed := s.exposed + 1, sender := Incremented, increments := s.increments + 1)
      else s
    case Count => if s.sender.Incremented? then s.(counted := s.counted + 1, sender := AtRest) else s
    case Replace => if s.registration.Done? then s.(exposed := 0, registration := Replaced) else s
    case Restore =>
      if s.registration.Replaced? then s.(exposed := s.exposed + s.counted, registration := Done) else s
  }

  function Run(s: State, steps: seq<Step>): State
    decreases |steps|
  {
    if steps == [] then s else Run(Next(s, steps[0]), steps[1..])
  }

  /** Only the sender takes steps. */
  predicate SenderOnly(steps: seq<Step>) {
    forall i :: 0 <= i < |steps| ==> steps[i].Increment? || steps[i].Count?
  }

  /** While only the sender runs, both values follow its increments. */
  lemma {:induction false} SenderAlone(s: State, steps: seq<Step>)
    requires SenderOnly(steps)
    ensures var t := Run(s, steps);
            && t.exposed - s.exposed == t.increments - s.increments
            && t.Drift() == s.Drift()
            && t.registration == s.registration
    decreases |steps|
  {
    if steps != [] {
      SenderAlone(Next(s, steps[0]), steps[1..]);
    }
  }

  /** A stream that is never registered again exposes what it counted. */
  lemma NoDriftWithoutReRegistration(steps: seq<Step>)
    requires SenderOnly(steps)
    ensures Run(REGISTERED, steps).Drift() == 0
  {
    SenderAlone(REGISTERED, steps);
  }

  /** What the last re-registration leaves behind, whatever came before it: with
      `during` run inside it and `later` after it, the exposed counter is ahead by the
      increments made inside it, less one if it ended in the middle of a packet. */
  lemma DriftOfLastReRegistration(s: State, during: seq<Step>, later: seq<Step>)
    requires s.registration.Done? && SenderOnly(during) && SenderOnly(later)
    ensures var torn := Run(Next(s, Replace), during);
            var t := Run(Next(torn, Restore), later);
            t.Drift() == (torn.increments - s.increments) - torn.Open() && t.registration.Done?
  {
    var torn := Run(Next(s, Replace), during);
    SenderAlone(Next(s, Replace), during);
    SenderAlone(Next(torn, Restore), later);
  }

  /** So with the sender at rest it exposes what was counted exactly when the packets
      incremented inside the last re-registration are none, or only one that was still
      to be counted at its end. */
  lemma ExactAfterReRegistrationIff(s: State, during: seq<Step>, later: seq<Step>)
    requires s.registration.Done? && SenderOnly(during) && SenderOnly(later)
    requires Run(Next(Run(Next(s, Replace), during), Restore), later).sender.AtRest?
    ensures var torn := Run(Next(s, Replace), during);
            var t := Run(Next(torn, Restore), later);
            t.exposed == t.counted
            <==> torn.increments - s.increments == if torn.sender.Incremented? then 1 else 0
  {
    DriftOfLastReRegistration(s, during, later);
  }

  /** Packets sent one after another. */
  function Packets(n: nat): (steps: seq<Step>)
    ensures SenderOnly(steps)
  {
    if n == 0 then [] else [Increment, Count] + Packets(n - 1)
  }

  lemma {:induction false} PacketsRun(s: State, n: nat)
    requires s.sender.AtRest?
    ensures var t := Run(s, Packets(n)); t.sender.AtRest? && t.increments == s.increments + n
    decreases n
  {
    if n > 0 {
      var rest := [Count] + Packets(n - 1);
      assert Packets(n)[0] == Increment && Packets(n)[1..] == rest;
      assert rest[0] == Count && rest[1..] == Packets(n - 1);
      var one := Next(Next(s, Increment), Count);
      assert Run(s, Packets(n)) == Run(Next(s, Increment), rest) == Run(one, Packets(n - 1));
      PacketsRun(one, n - 1);
    }
  }

  /** Increments and counts take turns. */
  lemma {:induction false} TakeTurns(s: State, steps: seq<Step>)
    requires SenderOnly(steps)
    ensures var t := Run(s, steps); t.increments - s.increments >= t.Open() - s.Open()
    decreases |steps|
  {
    if steps != [] {
      TakeTurns(Next(s, steps[0]), steps[1..]);
    }
  }

  /** A re-registration from state s, with these sender steps inside and after it, ends
      with the sender at rest and the exposed counter ahead by `drift`. */
  predicate Leaves(s: State, during: seq<Step>, later: seq<Step>, drift: int) {
    var t := Run(Next(Run(Next(s, Replace), during), Restore), later);
    SenderOnly(during) && SenderOnly(later) && t.sender.AtRest? && t.exposed - t.counted == drift
  }

  lemma LeavesDrift(s: State, during: seq<Step>)
    requires s.registration.Done? && SenderOnly(during)
    ensures var torn := Run(Next(s, Replace), during);
            Leaves(s, during, [Count], (torn.increments - s.increments) - torn.Open())
  {
    var restored := Next(Run(Next(s, Replace), during), Restore);
    DriftOfLastReRegistration(s, during, [Count]);
    assert Run(restored, [Count]) == Next(restored, Count);
  }

  /** The drifts one re-registration can leave: any number of packets too many, or one
      too few when it begins in the middle of a packet. */
  lemma PossibleDrifts(s: State, drift: int)
    requires s.registration.Done?
    ensures (exists during, later :: Leaves(s, during, later, drift)) <==> drift >= -s.Open()
  {
    if during, later :| Leaves(s, during, later, drift) {
      DriftOfLastReRegistration(s, during, later);
      TakeTurns(Next(s, Replace), during);
    }
    if drift == -1 && s.sender.Incremented? {
      LeavesDrift(s, []);
      assert Leaves(s, [], [Count], drift);
    } else if drift >= 0 {
      var during := [Count] + Packets(drift);
      var replaced := Next(s, Replace);
      assert during[1..] == Packets(drift);
      PacketsRun(Next(replaced, Count), drift);
      LeavesDrift(s, during);
      assert Leaves(s, during, [Count], drift);
    }
  }
}
