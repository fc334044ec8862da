/** The metrics a client stream exposes. They carry labels that name the server
    behind the destination; when replies begin to come from another server, all of
    them are taken out of the registry and registered again under new labels. */
module Metrics {

  /** The labels that identify the server. */
  datatype Server = Server(namespace: string, pod: string, node: string)

  const NO_SERVER := Server("", "", "")

  datatype Metric = PacketsSent | SendFailed | PacketsReceived | PacketsDropped | RoundTripTime | Latency

  /** The registry tells collectors apart by name and labels. */
  datatype Id = Id(stream: string, metric: Metric, server: Server)

  /** The identities of a stream's six collectors. */
  function Six(stream: string, server: Server): set<Id> {
    {Id(stream, PacketsSent, server), Id(stream, SendFailed, server), Id(stream, PacketsReceived, server),
     Id(stream, PacketsDropped, server), Id(stream, RoundTripTime, server), Id(stream, Latency, server)}
  }

  class Collector {
    const id: Id
    var value: int

    constructor (id: Id)
      ensures this.id == id && value == 0
    {
      this.id := id;
      value := 0;
    }

    /** A counter panics on a negative increment. */
    method Add(amount: int)
      requires amount >= 0
      modifies this
      ensures value == old(value) + amount
    {
      value := value + amount;
    }
  }

  class Registry {
    var collectors: map<Id, Collector>

    constructor ()
      ensures collectors == map[]
    {
      collectors := map[];
    }

    /** Panics when a collector with the same identity is registered. */
    method MustRegister(c: Collector)
      requires c.id !in collectors
      modifies this
      ensures collectors == old(collectors)[c.id := c]
    {
      collectors := collectors[c.id := c];
    }

    /** Removes whatever collector is registered under c's identity. */
    method Unregister(c: Collector)
      modifies this
      ensures collectors == old(collectors) - {c.id}
    {
      collectors := collectors - {c.id};
    }
  }

  /** The collectors of other streams are as they were. */
  ghost predicate OthersKept(before: map<Id, Collector>, after: map<Id, Collector>, stream: string) {
    forall id: Id :: id.stream != stream ==>
      (id in after <==> id in before) && (id in after ==> after[id] == before[id])
  }

  function Ids(cs: seq<Collector>): set<Id> {
    set c | c in cs :: c.id
  }

  class StreamMetrics {
    const registry: Registry
    const stream: string
    var streamMetrics: seq<Collector>
    var server: Server

    var packetSent: Collector
    var packetSendFailed: Collector
    var packetReceived: Collector
    var packetDropped: Collector
    var roundTrip: Collector
    var latency: Collector

    var packetSentVal: nat
    var packetSendFailedVal: nat
    var packetReceivedVal: nat
    var packetDroppedVal: nat
    var roundTripVal: nat

    /** c is the stream's collector for a metric, and will be found for removal. */
    ghost predicate Listed(c: Collector, metric: Metric)
      reads this, registry
    {
      && c.id == Id(stream, metric, server)
      && c in streamMetrics
      && c.id in registry.collectors && registry.collectors[c.id] == c
    }

    /** The stream's collectors are the current six, under the current labels. */
    ghost predicate Registered()
      reads this, registry
    {
      && Listed(packetSent, PacketsSent) && Listed(packetSendFailed, SendFailed)
      && Listed(packetReceived, PacketsReceived) && Listed(packetDropped, PacketsDropped)
      && Listed(roundTrip, RoundTripTime) && Listed(latency, Latency)
      && (forall id :: id in registry.collectors && id.stream == stream ==> id.server == server)
      && (forall c :: c in streamMetrics ==> c.id.stream == stream)
    }

    /** While registered, the registry holds exactly six collectors of the stream. */
    lemma ExactlySix()
      requires Registered()
      ensures (set id | id in registry.collectors && id.stream == stream) == Six(stream, server)
      ensures |Six(stream, server)| == 6
    {
      forall id | id in registry.collectors && id.stream == stream
        ensures id in Six(stream, server)
      {
        match id.metric
        case PacketsSent => case SendFailed => case PacketsReceived =>
        case PacketsDropped => case RoundTripTime => case Latency =>
      }
    }

    /** What is exposed under the mutex's protection is what was counted. */
    ghost predicate Exposed()
      reads this, packetReceived, packetDropped, roundTrip
    {
      && packetReceived.value == packetReceivedVal
      && packetDropped.value == packetDroppedVal
      && roundTrip.value == roundTripVal
    }

    /** The send counters expose what was counted, as they do whenever the sender has
        been at rest since the last registration began. */
    ghost predicate SendsExposed()
      reads this, packetSent, packetSendFailed
    {
      packetSent.value == packetSentVal && packetSendFailed.value == packetSendFailedVal
    }

    ghost predicate Valid()
      reads this, registry, packetReceived, packetDropped, roundTrip
    {
      Registered() && Exposed()
    }

    /** Registration during set-up, when the registry holds nothing of the stream. */
    constructor (registry: Registry, stream: string)
      requires forall id :: id in registry.collectors ==> id.stream != stream
      modifies registry
      ensures Valid() && this.registry == registry && this.stream == stream && server == Server("", "", "")
      ensures SendsExposed() && packetSentVal == packetSendFailedVal == 0
      ensures packetReceivedVal == packetDroppedVal == roundTripVal == 0
      ensures OthersKept(old(registry.collectors), registry.collectors, stream)
    {
      this.registry, this.stream := registry, stream;
      server := NO_SERVER;
      streamMetrics := [];
      packetSentVal, packetSendFailedVal, packetReceivedVal, packetDroppedVal, roundTripVal := 0, 0, 0, 0, 0;
      var unset := new Collector(Id(stream, Latency, NO_SERVER));
      packetSent, packetSendFailed, packetReceived := unset, unset, unset;
      packetDropped, roundTrip, latency := unset, unset, unset;
      new;
      RegisterStreamMetrics();
    }

    /** Nothing of the stream is registered under a metric. */
    ghost predicate Free(metric: Metric)
      reads this, registry
    {
      Id(stream, metric, server) !in registry.collectors
    }

    /** Creates a collector that starts from the amount counted so far. */
    method RegisterMetric(metric: Metric, amount: nat) returns (c: Collector)
      requires Free(metric)
      modifies registry, this`streamMetrics
      ensures fresh(c) && c.id == Id(stream, metric, server) && c.value == amount
      ensures registry.collectors == old(registry.collectors)[c.id := c]
      ensures c in streamMetrics && forall d :: d in streamMetrics <==> d in old(streamMetrics) || d == c
    {
      c := new Collector(Id(stream, metric, server));
      registry.MustRegister(c);
      streamMetrics := streamMetrics + [c];
      if amount > 0 {
        c.Add(amount);
      }
    }

    /** Of the stream's metrics only these are registered, under the current labels. */
    ghost predicate Only(metrics: set<Metric>)
      reads this, registry
    {
      && (forall id :: id in registry.collectors && id.stream == stream ==> id.server == server && id.metric in metrics)
      && (forall c :: c in streamMetrics ==> c.id.stream == stream)
    }

    method RegisterSendCounters()
      requires Only({})
      modifies registry, this`streamMetrics, this`packetSent, this`packetSendFailed
      ensures Listed(packetSent, PacketsSent) && Listed(packetSendFailed, SendFailed)
      ensures SendsExposed() && fresh(packetSent) && fresh(packetSendFailed)
      ensures Only({PacketsSent, SendFailed})
      ensures OthersKept(old(registry.collectors), registry.collectors, stream)
    {
      packetSent := RegisterMetric(PacketsSent, packetSentVal);
      packetSendFailed := RegisterMetric(SendFailed, packetSendFailedVal);
    }

    method RegisterOutcomeCounters()
      requires Listed(packetSent, PacketsSent) && Listed(packetSendFailed, SendFailed)
      requires Only({PacketsSent, SendFailed})
      modifies registry, this`streamMetrics, this`packetReceived, this`packetDropped
      ensures Listed(packetSent, PacketsSent) && Listed(packetSendFailed, SendFailed)
      ensures Listed(packetReceived, PacketsReceived) && Listed(packetDropped, PacketsDropped)
      ensures packetReceived.value == packetReceivedVal && packetDropped.value == packetDroppedVal
      ensures Only({PacketsSent, SendFailed, PacketsReceived, PacketsDropped})
      ensures OthersKept(old(registry.collectors), registry.collectors, stream)
      ensures fresh(packetReceived) && fresh(packetDropped)
    {
      packetReceived := RegisterMetric(PacketsReceived, packetReceivedVal);
      packetDropped := RegisterMetric(PacketsDropped, packetDroppedVal);
    }

    ghost predicate CountersListed()
      reads this, registry
    {
      && Listed(packetSent, PacketsSent) && Listed(packetSendFailed, SendFailed)
      && Listed(packetReceived, PacketsReceived) && Listed(packetDropped, PacketsDropped)
    }

    method RegisterRoundTrip()
      requires CountersListed()
      requires Only({PacketsSent, SendFailed, PacketsReceived, PacketsDropped})
      modifies registry, this`streamMetrics, this`roundTrip
      ensures CountersListed() && Listed(roundTrip, RoundTripTime) && roundTrip.value == roundTripVal
      ensures Only({PacketsSent, SendFailed, PacketsReceived, PacketsDropped, RoundTripTime})
      ensures OthersKept(old(registry.collectors), registry.collectors, stream)
      ensures fresh(roundTrip)
    {
      roundTrip := RegisterMetric(RoundTripTime, roundTripVal);
    }

    method RegisterLatency()
      requires CountersListed() && Listed(roundTrip, RoundTripTime)
      requires Only({PacketsSent, SendFailed, PacketsReceived, PacketsDropped, RoundTripTime})
      modifies registry, this`streamMetrics, this`latency
      ensures Registered() && latency.value == 0
      ensures OthersKept(old(registry.collectors), registry.collectors, stream)
    {
      latency := RegisterMetric(Latency, 0);
    }

    method RegisterTimes()
      requires CountersListed()
      requires Only({PacketsSent, SendFailed, PacketsReceived, PacketsDropped})
      modifies registry, this`streamMetrics, this`roundTrip, this`latency
      ensures Registered() && roundTrip.value == roundTripVal
      ensures OthersKept(old(registry.collectors), registry.collectors, stream)
      ensures fresh(roundTrip)
    {
      RegisterRoundTrip();
      RegisterLatency();
    }

    method RegisterOthers()
      requires Listed(packetSent, PacketsSent) && Listed(packetSendFailed, SendFailed)
      requires Only({PacketsSent, SendFailed})
      modifies registry, this`streamMetrics, this`packetReceived, this`packetDropped, this`roundTrip, this`latency
      ensures Valid()
      ensures OthersKept(old(registry.collectors), registry.collectors, stream)
      ensures fresh(packetReceived) && fresh(packetDropped) && fresh(roundTrip)
    {
      RegisterOutcomeCounters();
      RegisterTimes();
    }

    /** Registers the six, starting from the amounts counted so far. */
    method RegisterStreamMetrics()
      requires Only({})
      modifies registry, this`streamMetrics, this`packetSent, this`packetSendFailed, this`packetReceived,
               this`packetDropped, this`roundTrip, this`latency
      ensures Valid() && SendsExposed()
      ensures OthersKept(old(registry.collectors), registry.collectors, stream)
    {
      RegisterSendCounters();
      RegisterOthers();
    }

    /** Unregisters every collector the stream ever registered. */
    method DeRegisterStreamMetrics()
      requires Registered()
      modifies registry
      ensures Only({})
      ensures forall id :: id in registry.collectors ==> id.stream != stream
      ensures OthersKept(old(registry.collectors), registry.collectors, stream)
    {
      ghost var was := registry.collectors;
      for i := 0 to |streamMetrics|
        invariant registry.collectors == was - Ids(streamMetrics[..i])
      {
        assert streamMetrics[..i + 1] == streamMetrics[..i] + [streamMetrics[i]];
        assert Ids(streamMetrics[..i + 1]) == Ids(streamMetrics[..i]) + {streamMetrics[i].id};
        registry.Unregister(streamMetrics[i]);
      }
      assert streamMetrics[..|streamMetrics|] == streamMetrics;
      forall id | id in was && id.stream == stream
        ensures id in Ids(streamMetrics)
      {
        match id.metric
        case PacketsSent => assert packetSent in streamMetrics;
        case SendFailed => assert packetSendFailed in streamMetrics;
        case PacketsReceived => assert packetReceived in streamMetrics;
        case PacketsDropped => assert packetDropped in streamMetrics;
        case RoundTripTime => assert roundTrip in streamMetrics;
        case Latency => assert latency in streamMetrics;
      }
    }

    /** The labels change: everything is taken out and registered anew. */
    method ReRegister(from: Server)
      requires Registered()
      modifies this`server, registry, this`streamMetrics, this`packetSent, this`packetSendFailed, this`packetReceived,
               this`packetDropped, this`roundTrip, this`latency
      ensures Valid() && SendsExposed() && server == from
      ensures OthersKept(old(registry.collectors), registry.collectors, stream)
    {
      DeRegisterStreamMetrics();
      server := from;
      RegisterStreamMetrics();
    }

    /** One counted reply, under the mutex: its round-trip time and the server that
        sent it. The totals survive a change of server, whatever the change. */
    method CountReply(elapsed: nat, from: Server)
      requires Valid()
      modifies this`packetReceivedVal, this`roundTripVal, this`server, registry, this`streamMetrics, this`packetSent,
               this`packetSendFailed, this`packetReceived, this`packetDropped, this`roundTrip, this`latency,
               roundTrip, packetReceived
      ensures Valid()
      ensures server == from
      ensures packetReceivedVal == old(packetReceivedVal) + 1
      ensures roundTripVal == old(roundTripVal) + elapsed
      ensures OthersKept(old(registry.collectors), registry.collectors, stream)
    {
      roundTrip.Add(elapsed);
      roundTripVal := roundTripVal + elapsed;
      packetReceived.Add(1);
      packetReceivedVal := packetReceivedVal + 1;
      if from != server {
        ReRegister(from);
      }
    }

    /** One dropped packet, under the mutex. */
    method CountDrop()
      requires Valid()
      modifies this`packetDroppedVal, packetDropped
      ensures Valid()
      ensures packetDroppedVal == old(packetDroppedVal) + 1
    {
      packetDropped.Add(1);
      packetDroppedVal := packetDroppedVal + 1;
    }
  }
}
