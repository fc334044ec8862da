/** The echo server's bookkeeping as the code has it: a map from client address to
    a session record that is updated in place. */
module UdpServer {
  import opened Config
  import Sessions

  class ClientInfo {
    var lastSeen: int
    var arrivedMaxSeq: nat

    constructor ()
      ensures lastSeen == 0 && arrivedMaxSeq == 0
    {
      lastSeen, arrivedMaxSeq := 0, 0;
    }

    function View(): Sessions.Session
      reads this
    {
      Sessions.Session(lastSeen, arrivedMaxSeq)
    }
  }

  class UdpServer {
    var activeClientsMap: map<string, ClientInfo>
    var activeClientStreams: int
    var packetsMissing: int
    var packetsLate: int

    /** No two clients share a session record. */
    ghost predicate Valid()
      reads this
    {
      forall a, b :: a in activeClientsMap && b in activeClientsMap && a != b ==>
        activeClientsMap[a] != activeClientsMap[b]
    }

    ghost function View(): Sessions.Table
      reads this, activeClientsMap.Values
    {
      Sessions.Table(map ip | ip in activeClientsMap :: activeClientsMap[ip].View(),
                     activeClientStreams, packetsMissing, packetsLate)
    }

    constructor ()
      ensures Valid() && View() == Sessions.EMPTY
    {
      activeClientsMap, activeClientStreams, packetsMissing, packetsLate := map[], 0, 0, 0;
    }

    /** Finds the client's session, opening one if there is none. */
    method SessionOf(ip: string) returns (info: ClientInfo)
      requires Valid()
      modifies this`activeClientsMap, this`activeClientStreams
      ensures Valid()
      ensures ip in activeClientsMap && info == activeClientsMap[ip]
      ensures ip in old(activeClientsMap) ==> View() == old(View())
      ensures ip !in old(activeClientsMap) ==>
                View() == old(View()).(clients := old(View()).clients[ip := Sessions.Session(0, 0)],
                                       activeStreams := old(View()).activeStreams + 1)
      ensures activeClientsMap.Values == old(activeClientsMap.Values) + {info}
      ensures if ip in old(activeClientsMap) then info == old(activeClientsMap)[ip] else fresh(info)
    {
      ghost var was, clients := activeClientsMap, View().clients;
      if ip !in activeClientsMap {
        activeClientStreams := activeClientStreams + 1;
        var fresh' := new ClientInfo();
        activeClientsMap := activeClientsMap[ip := fresh'];
      }
      info := activeClientsMap[ip];
      assert View().clients == if ip in was then clients else clients[ip := Sessions.Session(0, 0)];
      assert forall c :: c in was && c != ip ==> c in activeClientsMap && activeClientsMap[c] == was[c];
      forall v | v in was.Values + {info}
        ensures v in activeClientsMap.Values
      {
        if v != info {
          var c :| c in was && was[c] == v;
          assert activeClientsMap[c] == v;
        }
      }
    }

    /** Moves one client's session on; the other clients keep theirs. */
    method UpdateSession(ip: string, info: ClientInfo, number: int, now: int)
      requires Valid() && ip in activeClientsMap && activeClientsMap[ip] == info
      modifies info, this`packetsMissing, this`packetsLate
      ensures Valid() && activeClientsMap == old(activeClientsMap)
      ensures View() == old(View()).Handle(ip, number, now)
    {
      ghost var before := View();
      info.lastSeen := now;
      if number > info.arrivedMaxSeq {
        var seqDiff := number - info.arrivedMaxSeq - 1;
        if seqDiff > 0 {
          packetsMissing := packetsMissing + seqDiff;
        }
        info.arrivedMaxSeq := number;
      } else {
        packetsLate := packetsLate + 1;
      }
      forall c | c in activeClientsMap
        ensures activeClientsMap[c].View() == before.clients[ip := info.View()][c]
      {
        assert c != ip ==> activeClientsMap[c] != info;
      }
      assert View().clients == before.clients[ip := info.View()];
    }

    /** The block under the mutex for one received packet. */
    method HandlePacket(ip: string, number: int, now: int)
      requires Valid()
      modifies this, activeClientsMap.Values
      ensures Valid() && fresh(activeClientsMap.Values - old(activeClientsMap.Values))
      ensures View() == old(View()).Handle(ip, number, now)
    {
      ghost var before := View();
      var info := SessionOf(ip);
      assert ip in before.clients ==> info in old(activeClientsMap.Values);
      if ip !in before.clients {
        Sessions.OpenThenHandle(before, ip, number, now);
      }
      UpdateSession(ip, info, number, now);
    }

    method Evict(ip: string)
      requires Valid() && ip in activeClientsMap
      modifies this`activeClientsMap, this`activeClientStreams
      ensures Valid()
      ensures activeClientsMap == old(activeClientsMap) - {ip}
      ensures activeClientStreams - |activeClientsMap| == old(activeClientStreams) - |old(activeClientsMap)|
    {
      ghost var m := activeClientsMap;
      activeClientsMap := activeClientsMap - {ip};
      activeClientStreams := activeClientStreams - 1;
      assert activeClientsMap.Keys == m.Keys - {ip};
      assert |m| == |m.Keys| && |activeClientsMap| == |activeClientsMap.Keys|;
    }

    /** The loop of an eviction pass, in whatever order the map is walked. */
    method EvictOlder(sampled: int, timeout: int)
      requires Valid()
      modifies this`activeClientsMap, this`activeClientStreams
      ensures Valid()
      ensures forall ip :: ip in activeClientsMap <==>
                ip in old(activeClientsMap) && sampled <= old(activeClientsMap)[ip].lastSeen + timeout
      ensures forall ip :: ip in activeClientsMap ==> activeClientsMap[ip] == old(activeClientsMap)[ip]
      ensures activeClientStreams - |activeClientsMap| == old(activeClientStreams) - |old(activeClientsMap)|
    {
      ghost var was := activeClientsMap;
      var rest := activeClientsMap.Keys;
      while rest != {}
        invariant Valid()
        invariant rest <= activeClientsMap.Keys <= was.Keys
        invariant forall ip :: ip in activeClientsMap ==> activeClientsMap[ip] == was[ip]
        invariant forall ip :: ip in was && ip !in rest ==>
                    (ip in activeClientsMap <==> sampled <= was[ip].lastSeen + timeout)
        invariant activeClientStreams - |activeClientsMap| == old(activeClientStreams) - |was|
        decreases rest
      {
        var ip :| ip in rest;
        rest := rest - {ip};
        if sampled > activeClientsMap[ip].lastSeen + timeout {
          Evict(ip);
        }
      }
    }

    /** The eviction pass under the mutex. */
    method EvictIdle(sampled: int)
      requires Valid()
      modifies this`activeClientsMap, this`activeClientStreams
      ensures Valid()
      ensures View() == old(View()).EvictIdle(sampled)
      ensures forall ip :: ip in activeClientsMap <==>
                ip in old(activeClientsMap) && sampled <= old(activeClientsMap[ip].lastSeen) + 60_000_000
      ensures forall ip :: ip in activeClientsMap ==> activeClientsMap[ip] == old(activeClientsMap)[ip]
      ensures old(activeClientStreams) - activeClientStreams == old(|activeClientsMap|) - |activeClientsMap|
    {
      ViewSize();
      EvictOlder(sampled, SecToMicroSec(Sessions.IDLE_TIMEOUT_SECONDS));
      SameTable(old(View()), sampled);
    }

    lemma ViewSize()
      ensures |View().clients| == |activeClientsMap|
    {
      assert View().clients.Keys == activeClientsMap.Keys;
      assert |View().clients| == |View().clients.Keys| && |activeClientsMap| == |activeClientsMap.Keys|;
    }

    /** The table after a pass, read off the surviving sessions. */
    lemma SameTable(before: Sessions.Table, sampled: int)
      requires forall ip :: ip in activeClientsMap <==> ip in before.clients && !before.Idle(ip, sampled)
      requires forall ip :: ip in activeClientsMap ==> activeClientsMap[ip].View() == before.clients[ip]
      requires activeClientStreams - |activeClientsMap| == before.activeStreams - |before.clients|
      requires packetsMissing == before.missing && packetsLate == before.late
      ensures View() == before.EvictIdle(sampled)
    {
      ViewSize();
      assert View().clients == before.EvictIdle(sampled).clients;
    }
  }
}
