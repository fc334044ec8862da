/** The shared state of one client stream and the atomic updates its three
    goroutines make to it. */
module Client {

  /** The fields of a message that the accounting depends on. */
  datatype Packet = Packet(number: int, sendTimeStamp: int)

  /** Sequence number of the test packets sent before the traffic starts. */
  const TEST_NUMBER := -1

  /** Fields shared under the stream's mutex, the sender's sequence counter, and
      the timeout handler's cursor. */
  datatype State = State(
    packetSequence: nat,
    pending: map<int, int>,
    sent: nat,
    sendFailed: nat,
    received: nat,
    dropped: nat,
    roundTrip: int,
    cursor: nat
  )

  const FRESH := State(0, map[], 0, 0, 0, 0, 0, 1)

  function NextNumber(c: State): State {
    c.(packetSequence := c.packetSequence + 1)
  }

  function Enqueue(c: State, stamp: int): State {
    c.(pending := c.pending[c.packetSequence := stamp])
  }

  function Withdraw(c: State): State {
    c.(pending := c.pending - {c.packetSequence})
  }

  function CountFailed(c: State): State {
    c.(sendFailed := c.sendFailed + 1)
  }

  function CountSent(c: State): State {
    c.(sent := c.sent + 1)
  }

  /** A reply counts when it is no test reply and its number is still pending. */
  predicate Accepts(c: State, reply: Packet) {
    reply.number != TEST_NUMBER && reply.number in c.pending
  }

  function Receive(c: State, reply: Packet, now: int): State {
    if Accepts(c, reply) then
      c.(roundTrip := c.roundTrip + (now - reply.sendTimeStamp),
         received := c.received + 1,
         pending := c.pending - {reply.number})
    else c
  }

  /** What the timeout handler finds at its cursor. */
  datatype Verdict = Overdue | Young | Settled

  function Check(c: State, now: int, timeout: nat): Verdict {
    if c.cursor !in c.pending then Settled
    else if now - c.pending[c.cursor] > timeout then Overdue
    else Young
  }

  function Drop(c: State): State {
    c.(dropped := c.dropped + 1, pending := c.pending - {c.cursor})
  }

  function Advance(c: State): State {
    c.(cursor := c.cursor + 1)
  }
}
