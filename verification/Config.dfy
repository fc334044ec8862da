/** Stream configuration and the time units it is expressed in. */
module Config {

  /** A wall-clock reading in microseconds; the epoch lies in the past. */
  type Micros = t: int | 0 < t witness 1

  const SECOND_IN_NANOS := 1_000_000_000
  const MICRO_IN_NANOS := 1_000
  const MICROS_PER_SECOND := 1_000_000

  /** Fixed parameters of one stream. Times are in seconds, as in the profile. */
  datatype Stream = Stream(sendRate: nat, packetTimeout: nat, redialTimeout: nat, isDomainName: bool) {

    function TimeoutMicros(): (t: nat)
      ensures t == packetTimeout * 1_000_000
    {
      SecToMicroSec(packetTimeout)
    }

    function RedialMicros(): (t: nat)
      ensures t == redialTimeout * 1_000_000
    {
      SecToMicroSec(redialTimeout)
    }

    /** Successive drops tolerated after a successful redial. */
    function RedialThreshold(): nat {
      packetTimeout * sendRate
    }
  }

  /** Seconds in microseconds; the detour by way of nanoseconds loses nothing. */
  function SecToMicroSec(sec: nat): (micros: nat)
    ensures micros == sec * 1_000_000
  {
    assert sec * SECOND_IN_NANOS == sec * 1_000_000 * MICRO_IN_NANOS;
    sec * SECOND_IN_NANOS / MICRO_IN_NANOS
  }
}
